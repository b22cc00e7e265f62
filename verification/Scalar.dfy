/**
 Typed scalar attributes: closed value domains, the text written to sysfs, and the parser used for
 every readback. Enum value lists are kept as sets, since the source keeps them sorted and unique.
 */
module Scalar {
  import opened Common

  const MAX_SCALAR_CPU_ID: nat := 4095
  const MAX_SCALAR_STRING_BYTES: nat := 256
  const I64_MIN: int := -0x8000_0000_0000_0000
  const I64_MAX: int := 0x7FFF_FFFF_FFFF_FFFF

  datatype ScalarDomain =
    | IntegerRange(minimum: int, maximum: int)
    | IntegerEnum(integers: set<int>)
    | StringEnum(strings: set<string>)
    | CpuList(allowed: set<nat>, allowEmpty: bool)

  datatype ScalarValue = Integer(i: int) | Text(s: string) | Cpus(cpus: set<nat>)

  predicate IsI64(i: int) { I64_MIN <= i <= I64_MAX }

  /** What `ScalarDomain::canonicalize` accepts (the integers are `i64` by type). */
  predicate CanonicalDomain(d: ScalarDomain) {
    match d
    case IntegerRange(lo, hi) => IsI64(lo) && IsI64(hi) && lo <= hi
    case IntegerEnum(ints) => ints != {} && forall i :: i in ints ==> IsI64(i)
    case StringEnum(ss) => ss != {} && forall s :: s in ss ==> ValidScalarString(s)
    case CpuList(allowed, _) => allowed != {} && forall c :: c in allowed ==> c <= MAX_SCALAR_CPU_ID
  }

  /** `ScalarDomain::validate_value`. */
  predicate ValidValue(d: ScalarDomain, v: ScalarValue) {
    match (d, v)
    case (IntegerRange(lo, hi), Integer(i)) => lo <= i <= hi
    case (IntegerEnum(ints), Integer(i)) => i in ints
    case (StringEnum(ss), Text(s)) => s in ss
    case (CpuList(allowed, allowEmpty), Cpus(c)) => (allowEmpty || c != {}) && c <= allowed
    case _ => false
  }

  // ------------------------------------------------------------------- text

  /** Unicode White_Space, which `str::trim` strips. */
  predicate IsSpace(c: char) {
    || '\U{0009}' <= c <= '\U{000D}' || c == ' ' || c == '\U{0085}' || c == '\U{00A0}' || c == '\U{1680}'
    || '\U{2000}' <= c <= '\U{200A}' || c == '\U{2028}' || c == '\U{2029}' || c == '\U{202F}'
    || c == '\U{205F}' || c == '\U{3000}'
  }

  predicate IsAsciiSpace(c: char) { c == ' ' || c == '\t' || c == '\n' || c == '\r' || c == '\U{000C}' }

  predicate IsControl(c: char) { c <= '\U{001F}' || '\U{007F}' <= c <= '\U{009F}' }

  function TrimStart(s: string): string {
    if s != [] && IsSpace(s[0]) then TrimStart(s[1..]) else s
  }

  function TrimEnd(s: string): string {
    if s != [] && IsSpace(s[|s| - 1]) then TrimEnd(s[..|s| - 1]) else s
  }

  function Trim(s: string): string { TrimEnd(TrimStart(s)) }

  function Utf8Length(s: string): nat {
    if s == [] then 0
    else (if s[0] < '\U{0080}' then 1 else if s[0] < '\U{0800}' then 2 else if s[0] < '\U{10000}' then 3 else 4)
         + Utf8Length(s[1..])
  }

  predicate ValidScalarString(s: string) {
    s != [] && Utf8Length(s) <= MAX_SCALAR_STRING_BYTES && Trim(s) == s && forall c :: c in s ==> !IsControl(c)
  }

  // --------------------------------------------------------------- integers

  predicate IsDigit(c: char) { '0' <= c <= '9' }

  function DigitChar(d: nat): char
    requires d < 10
  {
    '0' + d as char
  }

  function PrintNat(n: nat): string {
    if n < 10 then [DigitChar(n)] else PrintNat(n / 10) + [DigitChar(n % 10)]
  }

  function PrintInt(i: int): string { if i < 0 then "-" + PrintNat(-i) else PrintNat(i) }

  function ParseDigits(s: string): Option<nat> {
    if s == [] then Some(0)
    else
      var last := s[|s| - 1];
      match ParseDigits(s[..|s| - 1])
      case None => None
      case Some(high) => if IsDigit(last) then Some(10 * high + (last - '0') as nat) else None
  }

  function ParseNat(s: string): Option<nat> { if s == [] then None else ParseDigits(s) }

  /** `str::parse::<u32>` followed by the `MAX_SCALAR_CPU_ID` filter. */
  function ParseCpuId(s: string): Option<nat> {
    match ParseNat(if s != [] && s[0] == '+' then s[1..] else s)
    case Some(n) => if n <= MAX_SCALAR_CPU_ID then Some(n) else None
    case None => None
  }

  /** `str::parse::<i64>`. */
  function ParseI64(s: string): Option<int> {
    var negative := s != [] && s[0] == '-';
    match ParseNat(if s != [] && (s[0] == '-' || s[0] == '+') then s[1..] else s)
    case None => None
    case Some(n) => var i: int := if negative then -(n as int) else n; if IsI64(i) then Some(i) else None
  }

  lemma {:induction false} PrintNatRoundTrip(n: nat)
    ensures PrintNat(n) != [] && forall k :: 0 <= k < |PrintNat(n)| ==> IsDigit(PrintNat(n)[k])
    ensures ParseDigits(PrintNat(n)) == Some(n)
  {
    var s := PrintNat(n);
    if n < 10 {
      assert s[..0] == [];
      assert (DigitChar(n) - '0') as nat == n;
    } else {
      PrintNatRoundTrip(n / 10);
      assert s[..|s| - 1] == PrintNat(n / 10);
    }
  }

  lemma TrimKeepsSolid(s: string)
    requires s != [] && !IsSpace(s[0]) && !IsSpace(s[|s| - 1])
    ensures Trim(s) == s
  {
  }

  // -------------------------------------------------------------- CPU lists

  /** A maximal run of consecutive CPU ids. */
  datatype Range = Range(lo: nat, hi: nat)

  /** Index of the last element of the consecutive run starting at `i`. */
  function RunEnd(ids: seq<nat>, i: nat): (e: nat)
    requires i < |ids|
    ensures i <= e < |ids|
    decreases |ids| - i
  {
    if i + 1 < |ids| && ids[i + 1] == ids[i] + 1 then RunEnd(ids, i + 1) else i
  }

  function Compress(ids: seq<nat>, i: nat): seq<Range>
    requires i <= |ids|
    decreases |ids| - i
  {
    if i == |ids| then []
    else var e := RunEnd(ids, i); [Range(ids[i], ids[e])] + Compress(ids, e + 1)
  }

  function RenderRange(r: Range): string {
    if r.lo == r.hi then PrintNat(r.lo) else PrintNat(r.lo) + "-" + PrintNat(r.hi)
  }

  function RenderRanges(rs: seq<Range>): seq<string> {
    if rs == [] then [] else [RenderRange(rs[0])] + RenderRanges(rs[1..])
  }

  function Join(parts: seq<string>): string {
    if parts == [] then ""
    else if |parts| == 1 then parts[0]
    else parts[0] + "," + Join(parts[1..])
  }

  /** The inner scan: the last index of the consecutive run starting at `first`. */
  method ScanRun(ids: seq<nat>, first: nat) returns (index: nat)
    requires first < |ids|
    ensures index == RunEnd(ids, first)
  {
    index := first;
    while index + 1 < |ids| && ids[index + 1] == ids[index] + 1
      invariant first <= index < |ids|
      invariant RunEnd(ids, index) == RunEnd(ids, first)
      decreases |ids| - index
    {
      index := index + 1;
    }
  }

  lemma RenderRun(ids: seq<nat>, i: nat)
    requires i < |ids|
    ensures var e := RunEnd(ids, i);
            RenderRanges(Compress(ids, i)) == [RenderRange(Range(ids[i], ids[e]))] + RenderRanges(Compress(ids, e + 1))
  {
    var e := RunEnd(ids, i);
    var all := Compress(ids, i);
    assert all == [Range(ids[i], ids[e])] + Compress(ids, e + 1);
    assert all[1..] == Compress(ids, e + 1);
  }

  /** What is rendered so far and what is still to render make up the whole list (folded). */
  ghost predicate Rendered(ids: seq<nat>, index: nat, ranges: seq<string>) {
    forall z {:trigger Unfold(z)} :: Unfold(z) ==>
      index <= |ids| && ranges + RenderRanges(Compress(ids, index)) == RenderRanges(Compress(ids, 0))
  }

  lemma RenderedStarts(ids: seq<nat>)
    ensures Rendered(ids, 0, [])
  {
  }

  lemma RenderedNext(ids: seq<nat>, index: nat, ranges: seq<string>)
    requires index < |ids| && Rendered(ids, index, ranges)
    ensures Rendered(ids, RunEnd(ids, index) + 1, ranges + [RenderRange(Range(ids[index], ids[RunEnd(ids, index)]))])
  {
    assert Unfold(true);
    RenderRun(ids, index);
    var first, rest := RenderRange(Range(ids[index], ids[RunEnd(ids, index)])), RenderRanges(Compress(ids, RunEnd(ids, index) + 1));
    assert ranges + ([first] + rest) == ranges + [first] + rest;
  }

  lemma RenderedEnds(ids: seq<nat>, ranges: seq<string>)
    requires Rendered(ids, |ids|, ranges)
    ensures ranges == RenderRanges(Compress(ids, 0))
  {
    assert Unfold(true);
    assert RenderRanges(Compress(ids, |ids|)) == [];
  }

  /** `format_scalar_cpu_list`: compress ascending ids into comma-separated ranges. */
  method FormatCpuList(ids: seq<nat>) returns (text: string)
    ensures text == Join(RenderRanges(Compress(ids, 0)))
  {
    var ranges: seq<string> := [];
    var index := 0;
    RenderedStarts(ids);
    while index < |ids|
      invariant 0 <= index <= |ids| && Rendered(ids, index, ranges)
    {
      var last := ScanRun(ids, index);
      RenderedNext(ids, index, ranges);
      ranges, index := ranges + [RenderRange(Range(ids[index], ids[last]))], last + 1;
    }
    RenderedEnds(ids, ranges);
    text := Join(ranges);
  }

  /** `str::split` on one character: always at least one part. */
  function Split(s: string, c: char): (parts: seq<string>)
    ensures parts != []
  {
    if s == [] then [""]
    else
      var rest := Split(s[1..], c);
      if s[0] == c then [""] + rest else [[s[0]] + rest[0]] + rest[1..]
  }

  function DropEmpty(parts: seq<string>): seq<string> {
    if parts == [] then []
    else (if parts[0] == "" then [] else [parts[0]]) + DropEmpty(parts[1..])
  }

  function BlankSpaces(s: string): string {
    if s == [] then [] else [if IsAsciiSpace(s[0]) then ' ' else s[0]] + BlankSpaces(s[1..])
  }

  /** `split_ascii_whitespace`. */
  function SplitWhitespace(s: string): seq<string> { DropEmpty(Split(BlankSpaces(s), ' ')) }

  /** One token: a CPU id or `start-end`. */
  function ParseToken(token: string): Option<Range> {
    var parts := Split(token, '-');
    if |parts| == 1 then
      match ParseCpuId(token) case Some(n) => Some(Range(n, n)) case None => None
    else if |parts| > 2 then None
    else
      match (ParseCpuId(parts[0]), ParseCpuId(parts[1]))
      case (Some(lo), Some(hi)) => if lo > hi then None else Some(Range(lo, hi))
      case _ => None
  }

  predicate Within(r: Range, c: nat) { r.lo <= c <= r.hi }

  function Members(r: Range): set<nat> { set c: nat | c <= r.hi && Within(r, c) }

  function ParseTokens(tokens: seq<string>): Option<set<nat>> {
    if tokens == [] then Some({})
    else
      match (ParseToken(tokens[0]), ParseTokens(tokens[1..]))
      case (Some(r), Some(rest)) => Some(Members(r) + rest)
      case _ => None
  }

  function ParseParts(parts: seq<string>): Option<set<nat>> {
    if parts == [] then Some({})
    else if Trim(parts[0]) == "" then None
    else
      match (ParseTokens(SplitWhitespace(parts[0])), ParseParts(parts[1..]))
      case (Some(first), Some(rest)) => Some(first + rest)
      case _ => None
  }

  /** `parse_scalar_cpu_list`. */
  function ParseCpuList(value: string): Option<set<nat>> {
    if value == "" then Some({}) else ParseParts(Split(value, ','))
  }

  /** The ids of `cpus` below `n`, ascending: how a `CpuSet` iterates. */
  function SortedCpus(cpus: set<nat>, n: nat): seq<nat> {
    if n == 0 then [] else SortedCpus(cpus, n - 1) + (if n - 1 in cpus then [n - 1] else [])
  }

  /** `encode_scalar_value`. */
  function EncodeScalar(v: ScalarValue): string {
    match v
    case Integer(i) => PrintInt(i)
    case Text(s) => s
    case Cpus(c) => Join(RenderRanges(Compress(SortedCpus(c, MAX_SCALAR_CPU_ID + 1), 0)))
  }

  /** `read_scalar` after the read itself: trim, parse by domain, validate. */
  function ReadScalar(d: ScalarDomain, raw: string): Option<ScalarValue> {
    var trimmed := Trim(raw);
    var parsed :=
      match d
      case IntegerRange(_, _) => (match ParseI64(trimmed) case Some(i) => Some(Integer(i)) case None => None)
      case IntegerEnum(_) => (match ParseI64(trimmed) case Some(i) => Some(Integer(i)) case None => None)
      case StringEnum(_) => Some(Text(trimmed))
      case CpuList(_, _) => (match ParseCpuList(trimmed) case Some(c) => Some(Cpus(c)) case None => None);
    if parsed.Some? && ValidValue(d, parsed.value) then parsed else None
  }

  // ------------------------------------------------------ proof of the round trip

  predicate Solid(s: string) { s != [] && forall k :: 0 <= k < |s| ==> IsDigit(s[k]) || s[k] == '-' }

  lemma {:induction false} SplitWithout(s: string, c: char)
    requires c !in s
    ensures Split(s, c) == [s]
  {
    if s != [] {
      assert forall x :: x in s[1..] ==> x in s;
      SplitWithout(s[1..], c);
      assert s == [s[0]] + s[1..];
    }
  }

  lemma {:induction false} SplitAt(a: string, c: char, b: string)
    requires c !in a
    ensures Split(a + [c] + b, c) == [a] + Split(b, c)
  {
    var s := a + [c] + b;
    if a == [] {
      assert s[1..] == b;
    } else {
      assert forall x :: x in a[1..] ==> x in a;
      SplitAt(a[1..], c, b);
      assert s[1..] == a[1..] + [c] + b;
      assert a == [a[0]] + a[1..];
    }
  }

  lemma {:induction false} BlankSolid(s: string)
    requires forall k :: 0 <= k < |s| ==> IsDigit(s[k]) || s[k] == '-'
    ensures BlankSpaces(s) == s
  {
    if s != [] {
      BlankSolid(s[1..]);
      assert s == [s[0]] + s[1..];
    }
  }

  lemma SplitWhitespaceSolid(s: string)
    requires Solid(s)
    ensures SplitWhitespace(s) == [s] && Trim(s) == s
  {
    BlankSolid(s);
    SplitWithout(s, ' ');
    assert [s][1..] == [];
    assert DropEmpty([s]) == [s] + DropEmpty([s][1..]);
  }

  lemma ParseCpuIdRoundTrip(n: nat)
    requires n <= MAX_SCALAR_CPU_ID
    ensures ParseCpuId(PrintNat(n)) == Some(n)
  {
    PrintNatRoundTrip(n);
  }

  lemma RangeRoundTrip(r: Range)
    requires r.lo <= r.hi <= MAX_SCALAR_CPU_ID
    ensures Solid(RenderRange(r)) && ParseToken(RenderRange(r)) == Some(r)
  {
    PrintNatRoundTrip(r.lo);
    PrintNatRoundTrip(r.hi);
    ParseCpuIdRoundTrip(r.lo);
    ParseCpuIdRoundTrip(r.hi);
    var a, b := PrintNat(r.lo), PrintNat(r.hi);
    SplitWithout(a, '-');
    SplitWithout(b, '-');
    if r.lo != r.hi {
      assert RenderRange(r) == a + ['-'] + b;
      SplitAt(a, '-', b);
    }
  }

  ghost predicate GoodRanges(rs: seq<Range>) {
    forall k :: 0 <= k < |rs| ==> rs[k].lo <= rs[k].hi <= MAX_SCALAR_CPU_ID
  }

  ghost function Covered(rs: seq<Range>): set<nat> {
    if rs == [] then {} else Members(rs[0]) + Covered(rs[1..])
  }

  lemma {:induction false} JoinSplits(rs: seq<Range>)
    requires rs != [] && GoodRanges(rs)
    ensures Split(Join(RenderRanges(rs)), ',') == RenderRanges(rs)
    ensures Solid(RenderRange(rs[0])) && Join(RenderRanges(rs)) != []
    ensures var j := Join(RenderRanges(rs)); !IsSpace(j[0]) && !IsSpace(j[|j| - 1])
  {
    RangeRoundTrip(rs[0]);
    var parts := RenderRanges(rs);
    if |rs| == 1 {
      assert RenderRanges(rs[1..]) == [];
      SplitWithout(parts[0], ',');
    } else {
      JoinSplits(rs[1..]);
      var rest := Join(RenderRanges(rs[1..]));
      assert parts[1..] == RenderRanges(rs[1..]);
      assert Join(parts) == parts[0] + [','] + rest;
      SplitAt(parts[0], ',', rest);
    }
  }

  lemma {:induction false} ParsePartsCovers(rs: seq<Range>)
    requires GoodRanges(rs)
    ensures ParseParts(RenderRanges(rs)) == Some(Covered(rs))
  {
    if rs != [] {
      ParsePartCovers(rs[0]);
      ParsePartsCovers(rs[1..]);
      var parts := RenderRanges(rs);
      assert parts[1..] == RenderRanges(rs[1..]) && parts[0] == RenderRange(rs[0]);
    }
  }

  lemma ParsePartCovers(r: Range)
    requires r.lo <= r.hi <= MAX_SCALAR_CPU_ID
    ensures var part := RenderRange(r);
            Trim(part) != "" && ParseTokens(SplitWhitespace(part)) == Some(Members(r))
  {
    RangeRoundTrip(r);
    var part := RenderRange(r);
    SplitWhitespaceSolid(part);
    assert [part][1..] == [];
    assert ParseTokens([part][1..]) == Some({});
    assert Members(r) + {} == Members(r);
  }

  lemma {:induction false} RunIsConsecutive(ids: seq<nat>, i: nat, k: nat)
    requires i < |ids| && i <= k <= RunEnd(ids, i)
    ensures ids[k] == ids[i] + (k - i)
    decreases k - i
  {
    if i < k {
      RunIsConsecutive(ids, i + 1, k);
    }
  }

  lemma {:induction false} CompressCovers(ids: seq<nat>, i: nat)
    requires i <= |ids|
    requires forall k :: 0 <= k < |ids| ==> ids[k] <= MAX_SCALAR_CPU_ID
    ensures GoodRanges(Compress(ids, i))
    ensures forall c :: c in Covered(Compress(ids, i)) <==> c in ids[i..]
    decreases |ids| - i
  {
    if i < |ids| {
      var e := RunEnd(ids, i);
      CompressCovers(ids, e + 1);
      RunCovers(ids, i);
      var range, rest := Range(ids[i], ids[e]), Compress(ids, e + 1);
      var all := [range] + rest;
      assert Compress(ids, i) == all;
      assert all[1..] == rest;
      assert Covered(all) == Members(range) + Covered(rest);
      assert ids[i..] == ids[i..e + 1] + ids[e + 1..];
    }
  }

  /** Of strictly increasing ids the ranges are ordered, and a gap separates each from the next. */
  lemma {:induction false} CompressSeparates(ids: seq<nat>, i: nat)
    requires i <= |ids| && StrictlyIncreasing(ids)
    ensures
      var rs := Compress(ids, i);
      && (rs == [] <==> i == |ids|) && (rs != [] ==> rs[0].lo == ids[i])
      && (forall k :: 0 <= k < |rs| ==> rs[k].lo <= rs[k].hi)
      && (forall k :: 0 <= k && k + 1 < |rs| ==> rs[k].hi + 1 < rs[k + 1].lo)
    decreases |ids| - i
  {
    if i < |ids| {
      var e := RunEnd(ids, i);
      RunStops(ids, i);
      RunIsConsecutive(ids, i, e);
      CompressSeparates(ids, e + 1);
      var rest := Compress(ids, e + 1);
      var rs := Compress(ids, i);
      assert rs == [Range(ids[i], ids[e])] + rest;
      assert forall k :: 0 < k < |rs| ==> rs[k] == rest[k - 1];
    }
  }

  /** A run ends where the next id leaves a gap. */
  lemma {:induction false} RunStops(ids: seq<nat>, i: nat)
    requires i < |ids|
    ensures var e := RunEnd(ids, i); e + 1 < |ids| ==> ids[e + 1] != ids[e] + 1
    decreases |ids| - i
  {
    if i + 1 < |ids| && ids[i + 1] == ids[i] + 1 { RunStops(ids, i + 1); }
  }

  lemma RunCovers(ids: seq<nat>, i: nat)
    requires i < |ids|
    ensures var e := RunEnd(ids, i);
            ids[i] <= ids[e] && forall c :: c in Members(Range(ids[i], ids[e])) <==> c in ids[i..e + 1]
  {
    var e := RunEnd(ids, i);
    var run := ids[i..e + 1];
    forall k | 0 <= k < |run| ensures run[k] == ids[i] + k {
      RunIsConsecutive(ids, i, i + k);
    }
    RunIsConsecutive(ids, i, e);
    forall c | c in Members(Range(ids[i], ids[e])) ensures c in run {
      assert run[c - ids[i]] == c;
    }
  }

  /** Whatever CPU set with ids up to 4095 is formatted, parsing the text gives that set back. */
  lemma CpuListRoundTrip(ids: seq<nat>)
    requires forall k :: 0 <= k < |ids| ==> ids[k] <= MAX_SCALAR_CPU_ID
    ensures var text := Join(RenderRanges(Compress(ids, 0)));
            Trim(text) == text && ParseCpuList(text) == Some(set c | c in ids)
  {
    var rs := Compress(ids, 0);
    CompressCovers(ids, 0);
    assert ids[0..] == ids;
    assert Covered(rs) == set c | c in ids;
    if rs == [] {
      assert ids == [];
    } else {
      JoinSplits(rs);
      ParsePartsCovers(rs);
      TrimKeepsSolid(Join(RenderRanges(rs)));
    }
  }

  lemma {:induction false} SortedCpusCorrect(cpus: set<nat>, n: nat)
    ensures var ids := SortedCpus(cpus, n);
            StrictlyIncreasing(ids) && (forall k :: 0 <= k < |ids| ==> ids[k] < n) &&
            forall c :: c in ids <==> c in cpus && c < n
  {
    if n > 0 {
      SortedCpusCorrect(cpus, n - 1);
    }
  }

  /** Encode and read back are inverse on every canonical domain. */
  lemma ScalarRoundTrip(d: ScalarDomain, v: ScalarValue)
    requires CanonicalDomain(d) && ValidValue(d, v)
    ensures ReadScalar(d, EncodeScalar(v)) == Some(v)
  {
    match v {
      case Integer(i) =>
        PrintNatRoundTrip(if i < 0 then -i else i);
        var digits := PrintNat(if i < 0 then -i else i);
        var text := PrintInt(i);
        assert i < 0 ==> text[1..] == digits && text[0] == '-' && text[|text| - 1] == digits[|digits| - 1];
        TrimKeepsSolid(text);
      case Text(s) =>
      case Cpus(c) =>
        var ids := SortedCpus(c, MAX_SCALAR_CPU_ID + 1);
        SortedCpusCorrect(c, MAX_SCALAR_CPU_ID + 1);
        CpuListRoundTrip(ids);
        assert forall x :: x in c ==> x <= MAX_SCALAR_CPU_ID;
        assert (set x | x in ids) == c;
    }
  }
}
