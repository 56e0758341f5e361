/**
 Names of cached generation results: job, attempt, fence, cancellation generation and assignment
 digest. A name the worker prints reads back; a name that reads need not be one it prints.
 */
module ResultNames {
  import opened Digits
  import opened Outcomes

  /** The lease identity of a claim; the attempt is always 1. */
  datatype Identity = Identity(job: string, fence: nat, cancellation: nat, assignment: string)

  const MAX_COUNTER: nat := 9_007_199_254_740_991

  predicate JobChar(c: char) {
    'a' <= c <= 'z' || IsDigit(c) || c == '.' || c == '_' || c == ':' || c == '-'
  }

  predicate JobId(s: string) {
    1 <= |s| <= 128 && ('a' <= s[0] <= 'z' || IsDigit(s[0])) && forall i :: 0 <= i < |s| ==> JobChar(s[i])
  }

  predicate Sha256(s: string) {
    |s| == 64 && forall i :: 0 <= i < |s| ==> IsDigit(s[i]) || 'a' <= s[i] <= 'f'
  }

  predicate ValidIdentity(i: Identity) {
    JobId(i.job) && 1 <= i.fence <= MAX_COUNTER && i.cancellation <= MAX_COUNTER && Sha256(i.assignment)
  }

  /** `_result_name` */
  function ResultName(i: Identity): string {
    Prefix(i.job, Numeral(i.fence), Numeral(i.cancellation)) + "-" + i.assignment + ".json"
  }

  function Prefix(job: string, fence: string, cancellation: string): string {
    job + "-1" + "-" + fence + "-" + cancellation
  }

  function TrailingDigits(s: string): (k: nat)
    ensures k <= |s|
  {
    if s == "" || !IsDigit(s[|s| - 1]) then 0 else TrailingDigits(s[..|s| - 1]) + 1
  }

  lemma {:induction false} TrailingRun(s: string)
    ensures forall i :: |s| - TrailingDigits(s) <= i < |s| ==> IsDigit(s[i])
    ensures TrailingDigits(s) < |s| ==> !IsDigit(s[|s| - TrailingDigits(s) - 1])
  {
    if s != "" && IsDigit(s[|s| - 1]) {
      TrailingRun(s[..|s| - 1]);
    }
  }

  /** A counter of one to sixteen digits after a hyphen at the end, and what precedes the hyphen. */
  function SplitCounter(s: string): (r: Option<(string, string)>)
    ensures r.Some? ==> AllDigits(r.value.1) && 1 <= |r.value.1| <= 16 && s == r.value.0 + "-" + r.value.1
  {
    var k := TrailingDigits(s);
    TrailingRun(s);
    if 1 <= k <= 16 && k < |s| && s[|s| - k - 1] == '-' then
      assert s == s[..|s| - k - 1] + "-" + s[|s| - k..];
      Some((s[..|s| - k - 1], s[|s| - k..]))
    else None
  }

  datatype Parts = Parts(job: string, fence: string, cancellation: string, assignment: string)

  /** The groups of the cache name pattern. */
  function MatchName(name: string): (r: Option<Parts>)
    ensures r.Some? ==> AllDigits(r.value.fence) && AllDigits(r.value.cancellation)
  {
    if |name| < 70 || name[|name| - 5..] != ".json" || name[|name| - 70] != '-' || !Sha256(name[|name| - 69..|name| - 5]) then None
    else match SplitCounter(name[..|name| - 70]) {
      case None => None
      case Some((beforeCancellation, cancellation)) =>
        match SplitCounter(beforeCancellation) {
          case None => None
          case Some((beforeFence, fence)) =>
            var n := |beforeFence|;
            if n < 2 || beforeFence[n - 2..] != "-1" || fence[0] == '0' || !JobId(beforeFence[..n - 2]) then None
            else Some(Parts(beforeFence[..n - 2], fence, cancellation, name[|name| - 69..|name| - 5]))
        }
    }
  }

  /** `_cache_identity`, as far as the name decides it */
  function CacheIdentity(name: string): Option<Identity> {
    match MatchName(name)
    case None => None
    case Some(p) =>
      if 1 <= NatOf(p.fence) <= MAX_COUNTER && NatOf(p.cancellation) <= MAX_COUNTER
      then Some(Identity(p.job, NatOf(p.fence), NatOf(p.cancellation), p.assignment))
      else None
  }

  lemma {:induction false} DigitsTrail(before: string, digits: string)
    requires AllDigits(digits)
    ensures TrailingDigits(before + "-" + digits) == |digits|
    decreases |digits|
  {
    var s := before + "-" + digits;
    if digits != "" {
      var last := digits[|digits| - 1];
      assert s[|s| - 1] == last && s[..|s| - 1] == before + "-" + digits[..|digits| - 1];
      DigitsTrail(before, digits[..|digits| - 1]);
    }
  }

  lemma CounterSplits(before: string, digits: string)
    requires AllDigits(digits) && 1 <= |digits| <= 16
    ensures SplitCounter(before + "-" + digits) == Some((before, digits))
  {
    DigitsTrail(before, digits);
    var s := before + "-" + digits;
    assert s[..|before|] == before && s[|before| + 1..] == digits && s[|before|] == '-';
  }

  lemma CounterWidth(n: nat)
    requires n <= MAX_COUNTER
    ensures 1 <= |Numeral(n)| <= 16
  {
    hide Numeral, Power10;
    SixteenPower();
    NumeralLength(n, 16);
  }

  lemma SixteenPower()
    ensures Power10(16) > MAX_COUNTER
  {
    assert Power10(4) == 10_000;
    PowerSum(4, 4);
    PowerSum(8, 8);
  }

  lemma NameEnds(prefix: string, assignment: string)
    requires |assignment| == 64
    ensures var name := prefix + "-" + assignment + ".json";
      |name| == |prefix| + 70 && name[|name| - 5..] == ".json" && name[|name| - 70] == '-'
      && name[|name| - 69..|name| - 5] == assignment && name[..|name| - 70] == prefix
  {
  }

  /** Every name the worker prints reads back to the identity it was printed for. */
  lemma ResultNameReadsBack(i: Identity)
    requires ValidIdentity(i)
    ensures CacheIdentity(ResultName(i)) == Some(i)
  {
    hide Numeral, NatOf, TrailingDigits, SplitCounter, JobId, Sha256;
    var fence, cancellation := Numeral(i.fence), Numeral(i.cancellation);
    CounterWidth(i.fence);
    CounterWidth(i.cancellation);
    NumeralReadsBack(i.fence);
    NumeralReadsBack(i.cancellation);
    HexWidth(i.assignment);
    NameEnds(Prefix(i.job, fence, cancellation), i.assignment);
    var beforeFence := i.job + "-1";
    CounterSplits(beforeFence + "-" + fence, cancellation);
    CounterSplits(beforeFence, fence);
    assert beforeFence[|beforeFence| - 2..] == "-1" && beforeFence[..|beforeFence| - 2] == i.job;
  }

  lemma HexWidth(s: string)
    requires Sha256(s)
    ensures |s| == 64
  {
  }

  /** Different lease identities never share a cache file. */
  lemma ResultNamesDiffer(a: Identity, b: Identity)
    requires ValidIdentity(a) && ValidIdentity(b) && ResultName(a) == ResultName(b)
    ensures a == b
  {
    hide ResultName, CacheIdentity;
    ResultNameReadsBack(a);
    ResultNameReadsBack(b);
  }

  /**
   A file name that reads as an identity is the name of that identity exactly when its cancellation
   counter has no leading zero: the pattern admits zeros that the printer never writes.
   */
  lemma ReadableNameIsPrintedExactly(name: string)
    requires CacheIdentity(name).Some?
    ensures var p := MatchName(name).value;
      ResultName(CacheIdentity(name).value) == name <==> p.cancellation[0] != '0' || p.cancellation == "0"
  {
    hide Numeral, NatOf, TrailingDigits, JobId, Sha256;
    var p := MatchName(name).value;
    var (beforeCancellation, cancellation) := SplitCounter(name[..|name| - 70]).value;
    var (beforeFence, fence) := SplitCounter(beforeCancellation).value;
    assert beforeFence == p.job + "-1";
    assert name[..|name| - 70] == Prefix(p.job, p.fence, p.cancellation);
    assert name == name[..|name| - 70] + "-" + p.assignment + ".json";
    NumeralUnique(p.fence);
    NumeralReadsBack(NatOf(p.cancellation));
    var i := CacheIdentity(name).value;
    var printed := Numeral(NatOf(p.cancellation));
    assert ResultName(i) == Prefix(p.job, p.fence, printed) + "-" + p.assignment + ".json";
    if p.cancellation[0] != '0' || p.cancellation == "0" {
      NumeralUnique(p.cancellation);
    } else {
      PrintedDiffers(p, printed, name);
    }
  }

  lemma PrintedDiffers(p: Parts, printed: string, name: string)
    requires AllDigits(printed) && printed != "" && (printed[0] != '0' || printed == "0")
    requires AllDigits(p.cancellation) && p.cancellation != "" && p.cancellation[0] == '0' && p.cancellation != "0"
    requires name == Prefix(p.job, p.fence, p.cancellation) + "-" + p.assignment + ".json"
    ensures name != Prefix(p.job, p.fence, printed) + "-" + p.assignment + ".json"
  {
    var head := p.job + "-1" + "-" + p.fence + "-";
    var tail := "-" + p.assignment + ".json";
    assert name == head + (p.cancellation + tail);
    var other := Prefix(p.job, p.fence, printed) + "-" + p.assignment + ".json";
    assert other == head + (printed + tail);
    if |printed| == |p.cancellation| {
      assert other[|head|] == printed[0] && name[|head|] == p.cancellation[0];
    }
  }

  /** The parts of a cache name, joined by hyphens; the attempt is one. */
  lemma ResultNameForm(i: Identity)
    ensures ResultName(i) == i.job + "-1-" + Numeral(i.fence) + "-" + Numeral(i.cancellation) + "-" + i.assignment + ".json"
  {
    assert "-1" + "-" == "-1-";
    assert (i.job + "-1") + "-" == i.job + "-1-";
  }
}
