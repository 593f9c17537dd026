/**
 * Character classes and small scanners shared by the fixed patterns of
 * formats.go, and the two generic search disciplines of Go's regexp package:
 * the leftmost match (FindStringSubmatch) and the successive leftmost
 * matches (FindAllStringSubmatch).
 */
module Text {
  import opened Wrappers

  /** `.` in RE2: any character but a line break. */
  predicate IsDot(c: char) { c != '\n' }

  /** `[a-zA-Z0-9]` */
  predicate IsAlnum(c: char) { 'a' <= c <= 'z' || 'A' <= c <= 'Z' || '0' <= c <= '9' }

  /** `\d`: RE2's Perl class, ASCII digits only. */
  predicate IsDigit(c: char) { '0' <= c <= '9' }

  /** `\s`: RE2's Perl class `[\t\n\f\r ]`. */
  predicate IsSpace(c: char) { c == '\t' || c == '\n' || c == '\U{000C}' || c == '\r' || c == ' ' }

  predicate AllDot(s: string) { forall i :: 0 <= i < |s| ==> IsDot(s[i]) }

  /** The word `w` occurs in `s` starting at position `i`. */
  predicate HasAt(s: string, i: nat, w: string) { i + |w| <= |s| && s[i..i + |w|] == w }

  /** Length of the longest run of characters satisfying `p` that starts at `i`. */
  function RunLen(s: string, i: nat, p: char -> bool): (k: nat)
    requires i <= |s|
    ensures i + k <= |s|
    ensures forall j :: i <= j < i + k ==> p(s[j])
    ensures i + k < |s| ==> !p(s[i + k])
    decreases |s| - i
  {
    if i < |s| && p(s[i]) then 1 + RunLen(s, i + 1, p) else 0
  }

  /** Index of the first `c` at or after `i`, or |s| when there is none. */
  function IndexOf(s: string, i: nat, c: char): (k: nat)
    requires i <= |s|
    ensures i <= k <= |s|
    ensures forall j :: i <= j < k ==> s[j] != c
    ensures k < |s| ==> s[k] == c
    decreases |s| - i
  {
    if i == |s| || s[i] == c then i else IndexOf(s, i + 1, c)
  }

  /** Whether `w` occurs in `s` at some position `i` or later. */
  function ContainsFrom(s: string, w: string, i: nat): (b: bool)
    requires i <= |s|
    ensures b <==> exists j :: i <= j && HasAt(s, j, w)
    decreases |s| - i
  {
    if HasAt(s, i, w) then true
    else if i == |s| then false
    else ContainsFrom(s, w, i + 1)
  }

  /** strings.Contains */
  function Contains(s: string, w: string): (b: bool)
    ensures b <==> exists j :: HasAt(s, j, w)
  {
    ContainsFrom(s, w, 0)
  }

  /** `w` does not occur at `i` when one of its characters differs there. */
  lemma MismatchAt(s: string, i: nat, w: string, d: nat)
    requires d < |w| && i + d < |s| && s[i + d] != w[d]
    ensures !HasAt(s, i, w)
  {
  }

  /** An occurrence of a concatenation is two adjacent occurrences, and back. */
  lemma HasAtConcat(s: string, i: nat, a: string, b: string)
    ensures HasAt(s, i, a + b) <==> HasAt(s, i, a) && HasAt(s, i + |a|, b)
  {
    if i + |a| + |b| <= |s| {
      assert s[i..i + |a| + |b|] == s[i..i + |a|] + s[i + |a|..i + |a| + |b|];
      if HasAt(s, i, a + b) {
        assert s[i..i + |a|] == (a + b)[..|a|] == a;
        assert s[i + |a|..i + |a| + |b|] == (a + b)[|a|..] == b;
      }
    }
  }

  /** IndexOf finds `k` when `c` sits at `k` and nowhere between `i` and `k`. */
  lemma IndexOfAt(s: string, i: nat, c: char, k: nat)
    requires i <= k < |s| && s[k] == c
    requires forall j :: i <= j < k ==> s[j] != c
    ensures IndexOf(s, i, c) == k
  {
  }

  /** RunLen is `k` when `p` holds on the `k` characters from `i` and fails right after them. */
  lemma RunLenIs(s: string, i: nat, p: char -> bool, k: nat)
    requires i + k <= |s|
    requires forall j :: i <= j < i + k ==> p(s[j])
    requires i + k < |s| ==> !p(s[i + k])
    ensures RunLen(s, i, p) == k
    decreases k
  {
    if k > 0 {
      RunLenIs(s, i + 1, p, k - 1);
    }
  }

  /** A run of exactly one character: `p` holds at `i` and fails at `i + 1`. */
  lemma RunLenOne(s: string, i: nat, p: char -> bool)
    requires i + 1 < |s| && p(s[i]) && !p(s[i + 1])
    ensures RunLen(s, i, p) == 1
  {
  }

  /** The value of a decimal digit string (strconv.Atoi without overflow). */
  function DecimalValue(ds: string): nat
    requires forall i :: 0 <= i < |ds| ==> IsDigit(ds[i])
    decreases |ds|
  {
    if ds == [] then 0
    else
      assert IsDigit(ds[|ds| - 1]);
      10 * DecimalValue(ds[..|ds| - 1]) + (ds[|ds| - 1] as int - '0' as int)
  }

  /**
   * The leftmost match: `at(q)` is the match the pattern prefers when it
   * starts exactly at `q`; the search tries q = p, p + 1, ... below n.
   */
  function Leftmost<T>(n: nat, p: nat, at: nat -> Option<T>): (r: Option<T>)
    ensures r.Some? ==> exists q :: p <= q < n && at(q) == r && forall j :: p <= j < q ==> at(j).None?
    ensures r.None? ==> forall q :: p <= q < n ==> at(q).None?
    decreases n - p
  {
    if p >= n then None
    else if at(p).Some? then at(p)
    else Leftmost(n, p + 1, at)
  }

  /**
   * A greedy quantifier: the continuation `at(v)` is tried for the counts
   * v = w, w - 1, ..., 1, and the largest count whose continuation matches
   * wins.
   */
  function LongestFirst<T>(w: nat, at: nat -> Option<T>): (r: Option<T>)
    ensures r.Some? ==> exists v :: 1 <= v <= w && at(v) == r && forall u :: v < u <= w ==> at(u).None?
    ensures r.None? ==> forall v :: 1 <= v <= w ==> at(v).None?
    decreases w
  {
    if w == 0 then None
    else if at(w).Some? then at(w)
    else LongestFirst(w - 1, at)
  }

  /** The `w` characters from `i` all satisfy `p`. */
  predicate RunOf(s: string, i: nat, w: nat, p: char -> bool)
  {
    i + w <= |s| && forall j :: i <= j < i + w ==> p(s[j])
  }

  /** The runs from `i` are exactly the prefixes of the longest one. */
  lemma RunOfIff(s: string, i: nat, w: nat, p: char -> bool)
    requires i <= |s|
    ensures RunOf(s, i, w, p) <==> w <= RunLen(s, i, p)
  {
    var k := RunLen(s, i, p);
    if w > k && i + w <= |s| {
      assert i <= i + k < i + w;
    }
  }

  /**
   * A greedy `c+` over the class `p` at `i`, followed by the continuation
   * `at`: the match is the one for the longest run whose continuation
   * matches.
   */
  lemma GreedyRun<T>(s: string, i: nat, p: char -> bool, at: nat -> Option<T>, x: T)
    requires i <= |s|
    ensures LongestFirst(RunLen(s, i, p), at) == Some(x) <==>
      exists w :: 1 <= w && RunOf(s, i, w, p) && at(w) == Some(x) &&
        forall v :: w < v && RunOf(s, i, v, p) ==> at(v).None?
  {
    var k := RunLen(s, i, p);
    forall v ensures RunOf(s, i, v, p) <==> v <= k {
      RunOfIff(s, i, v, p);
    }
    var r := LongestFirst(k, at);
    if r == Some(x) {
      var w :| 1 <= w <= k && at(w) == r && forall u :: w < u <= k ==> at(u).None?;
      assert RunOf(s, i, w, p);
    }
    if w :| 1 <= w && RunOf(s, i, w, p) && at(w) == Some(x) && forall v :: w < v && RunOf(s, i, v, p) ==> at(v).None? {
      assert w <= k;
      assert r.Some?;
      var v :| 1 <= v <= k && at(v) == r && forall u :: v < u <= k ==> at(u).None?;
      assert v == w;
    }
  }

  /**
   * A lazy `(.+?)` at `s` followed by the continuation `rest`: the group
   * ending at `e` is tried for e = s + 1, s + 2, ..., as long as the group
   * holds no line break, and the first end after which `rest` matches wins.
   */
  function ShortestGroup<R>(line: string, s: nat, e: nat, rest: nat -> Option<R>): (r: Option<(string, R)>)
    requires s < e
    ensures r.Some? ==> s + |r.value.0| >= e && r.value.0 != [] && AllDot(r.value.0) && HasAt(line, s, r.value.0)
    ensures r.Some? ==> rest(s + |r.value.0|) == Some(r.value.1)
    decreases |line| + 1 - e
  {
    if e > |line| || !AllDot(line[s..e]) then None
    else if rest(e).Some? then Some((line[s..e], rest(e).value))
    else ShortestGroup(line, s, e + 1, rest)
  }

  /**
   * ShortestGroup from `s + 1` finds the group `t` exactly when `t` is a
   * non-empty run of non-line-break characters at `s` after which `rest`
   * matches, and `rest` matches after no shorter such run.
   */
  lemma {:induction false} ShortestGroupIff<R>(line: string, s: nat, e: nat, rest: nat -> Option<R>, t: string, x: R)
    requires s < e && (e <= |line| + 1 ==> AllDot(line[s..e - 1]))
    ensures ShortestGroup(line, s, e, rest) == Some((t, x)) <==>
      && s + |t| >= e && HasAt(line, s, t) && AllDot(t)
      && rest(s + |t|) == Some(x)
      && forall f :: e <= f < s + |t| ==> rest(f).None?
    decreases |line| + 1 - e
  {
    var r := ShortestGroup(line, s, e, rest);
    if e > |line| || !AllDot(line[s..e]) {
      if e <= |line| && s + |t| >= e && HasAt(line, s, t) {
        assert line[s..e] == t[..e - s];
      }
    } else if rest(e).Some? {
      if s + |t| >= e && HasAt(line, s, t) && AllDot(t) && rest(s + |t|) == Some(x) &&
         forall f :: e <= f < s + |t| ==> rest(f).None?
      {
        assert s + |t| == e;
        assert t == line[s..e];
      }
    } else {
      ShortestGroupIff(line, s, e + 1, rest, t, x);
    }
  }

  /**
   * All successive leftmost matches: after a match that ends at `e` the next
   * search starts at `e`, so matches never overlap. `at(q)` gives a match
   * starting at `q` together with its end, which lies after `q` and within
   * the text.
   */
  function AllMatches<T>(n: nat, p: nat, at: nat -> Option<(T, nat)>): (ms: seq<T>)
    requires p <= n
    requires forall q: nat :: at(q).Some? ==> q < at(q).value.1 <= n
    ensures |ms| <= n - p
    ensures ms == [] <==> forall q :: p <= q < n ==> at(q).None?
    decreases n - p
  {
    if p >= n then []
    else if at(p).Some? then [at(p).value.0] + AllMatches(n, at(p).value.1, at)
    else AllMatches(n, p + 1, at)
  }

  /** A stretch where no match starts contributes nothing to AllMatches. */
  lemma {:induction false} AllMatchesSkip<T>(n: nat, p: nat, q: nat, at: nat -> Option<(T, nat)>)
    requires p <= q <= n
    requires forall r: nat :: at(r).Some? ==> r < at(r).value.1 <= n
    requires forall r :: p <= r < q ==> at(r).None?
    ensures AllMatches(n, p, at) == AllMatches(n, q, at)
    decreases q - p
  {
    if p < q {
      AllMatchesSkip(n, p + 1, q, at);
    }
  }

  /**
   * Where the search for the `i`-th match of a scan starts: at `p` for the
   * first one, and right after the previous match for the others.
   */
  function SearchFrom<T>(p: nat, at: nat -> Option<(T, nat)>, qs: seq<nat>, i: nat): nat
    requires i <= |qs|
  {
    if i == 0 then p
    else if at(qs[i - 1]).Some? then at(qs[i - 1]).value.1
    else qs[i - 1]
  }

  /**
   * `ms` is what a left-to-right scan of [p, n) finds when its matches start
   * at `qs`: the i-th match starts at qs[i] and yields ms[i], the search
   * for it starts where the previous match ended (or at p), no match starts
   * before it in that stretch, and none starts after the last match ends.
   */
  ghost predicate MatchScan<T>(n: nat, p: nat, at: nat -> Option<(T, nat)>, ms: seq<T>, qs: seq<nat>)
  {
    && |qs| == |ms|
    && (forall i :: 0 <= i < |qs| ==> p <= qs[i] < n && at(qs[i]).Some? && at(qs[i]).value.0 == ms[i])
    && (forall i {:trigger SearchFrom(p, at, qs, i)} :: 0 <= i < |qs| ==> SearchFrom(p, at, qs, i) <= qs[i])
    && (forall i, q {:trigger SearchFrom(p, at, qs, i), at(q)} ::
          0 <= i < |qs| && SearchFrom(p, at, qs, i) <= q < qs[i] ==> at(q).None?)
    && (forall q :: SearchFrom(p, at, qs, |qs|) <= q < n ==> at(q).None?)
  }

  /** A match at `p` in front of a scan that starts at its end. */
  lemma ScanCons<T>(n: nat, p: nat, at: nat -> Option<(T, nat)>, ms: seq<T>, qs: seq<nat>)
    requires p < n && at(p).Some? && p < at(p).value.1
    requires MatchScan(n, at(p).value.1, at, ms, qs)
    ensures MatchScan(n, p, at, [at(p).value.0] + ms, [p] + qs)
  {
    var e := at(p).value.1;
    var ms2, qs2 := [at(p).value.0] + ms, [p] + qs;
    ScanConsHits(n, p, at, ms, qs);
    ScanConsStarts(n, p, at, ms, qs);
    ScanConsGaps(n, p, at, ms, qs);
    SearchFromCons(p, at, qs);
    assert SearchFrom(p, at, qs2, |qs2|) == SearchFrom(e, at, qs, |qs|);
  }

  lemma ScanConsHits<T>(n: nat, p: nat, at: nat -> Option<(T, nat)>, ms: seq<T>, qs: seq<nat>)
    requires p < n && at(p).Some? && p < at(p).value.1
    requires MatchScan(n, at(p).value.1, at, ms, qs)
    ensures forall i :: 0 <= i < |qs| + 1 ==>
      var qs2 := [p] + qs;
      p <= qs2[i] < n && at(qs2[i]).Some? && at(qs2[i]).value.0 == ([at(p).value.0] + ms)[i]
  {
    var ms2, qs2 := [at(p).value.0] + ms, [p] + qs;
    forall i | 0 <= i < |qs2|
      ensures p <= qs2[i] < n && at(qs2[i]).Some? && at(qs2[i]).value.0 == ms2[i]
    {
      if i > 0 {
        assert qs2[i] == qs[i - 1] && ms2[i] == ms[i - 1];
      }
    }
  }

  lemma ScanConsStarts<T>(n: nat, p: nat, at: nat -> Option<(T, nat)>, ms: seq<T>, qs: seq<nat>)
    requires p < n && at(p).Some? && p < at(p).value.1
    requires MatchScan(n, at(p).value.1, at, ms, qs)
    ensures forall i {:trigger SearchFrom(p, at, [p] + qs, i)} :: 0 <= i < |qs| + 1 ==>
      SearchFrom(p, at, [p] + qs, i) <= ([p] + qs)[i]
  {
    var e := at(p).value.1;
    var qs2 := [p] + qs;
    SearchFromCons(p, at, qs);
    forall i | 0 <= i < |qs2| ensures SearchFrom(p, at, qs2, i) <= qs2[i] {
      if i > 0 {
        assert SearchFrom(e, at, qs, i - 1) <= qs[i - 1] == qs2[i];
      }
    }
  }

  lemma ScanConsGaps<T>(n: nat, p: nat, at: nat -> Option<(T, nat)>, ms: seq<T>, qs: seq<nat>)
    requires p < n && at(p).Some? && p < at(p).value.1
    requires MatchScan(n, at(p).value.1, at, ms, qs)
    ensures forall i, q {:trigger SearchFrom(p, at, [p] + qs, i), at(q)} ::
      0 <= i < |qs| + 1 && SearchFrom(p, at, [p] + qs, i) <= q < ([p] + qs)[i] ==> at(q).None?
  {
    var e := at(p).value.1;
    var qs2 := [p] + qs;
    SearchFromCons(p, at, qs);
    forall i, q | 0 <= i < |qs2| && SearchFrom(p, at, qs2, i) <= q < qs2[i] ensures at(q).None? {
      assert i > 0 && SearchFrom(e, at, qs, i - 1) <= q < qs[i - 1];
    }
  }

  /** Prepending the match at `p` shifts the scan's search starts by one. */
  lemma SearchFromCons<T>(p: nat, at: nat -> Option<(T, nat)>, qs: seq<nat>)
    requires at(p).Some?
    ensures forall i :: 1 <= i <= |qs| + 1 ==>
      SearchFrom(p, at, [p] + qs, i) == SearchFrom(at(p).value.1, at, qs, i - 1)
  {
    var qs2 := [p] + qs;
    forall i | 1 <= i <= |qs2| ensures SearchFrom(p, at, qs2, i) == SearchFrom(at(p).value.1, at, qs, i - 1) {
      if i > 1 {
        assert qs2[i - 1] == qs[i - 2];
      }
    }
  }

  /** No match at `p` in front of a scan that starts at `p + 1`. */
  lemma ScanSkip<T>(n: nat, p: nat, at: nat -> Option<(T, nat)>, ms: seq<T>, qs: seq<nat>)
    requires p < n && at(p).None?
    requires MatchScan(n, p + 1, at, ms, qs)
    ensures MatchScan(n, p, at, ms, qs)
  {
    forall i | 1 <= i <= |qs| ensures SearchFrom(p, at, qs, i) == SearchFrom(p + 1, at, qs, i) {
    }
    forall i, q | 0 <= i < |qs| && SearchFrom(p, at, qs, i) <= q < qs[i] ensures at(q).None? {
      if q > p {
        assert SearchFrom(p + 1, at, qs, i) <= q < qs[i];
      }
    }
  }

  /**
   * AllMatches lists the matches in the order of their positions, each one
   * the first match after the end of the one before.
   */
  lemma {:induction false} AllMatchesScan<T>(n: nat, p: nat, at: nat -> Option<(T, nat)>)
    requires p <= n
    requires forall q: nat :: at(q).Some? ==> q < at(q).value.1 <= n
    ensures exists qs :: MatchScan(n, p, at, AllMatches(n, p, at), qs)
    decreases n - p
  {
    if p == n {
      assert MatchScan(n, p, at, AllMatches(n, p, at), []);
    } else if at(p).Some? {
      var e := at(p).value.1;
      AllMatchesScan(n, e, at);
      var qs :| MatchScan(n, e, at, AllMatches(n, e, at), qs);
      ScanCons(n, p, at, AllMatches(n, e, at), qs);
      assert AllMatches(n, p, at) == [at(p).value.0] + AllMatches(n, e, at);
      assert MatchScan(n, p, at, AllMatches(n, p, at), [p] + qs);
    } else {
      AllMatchesScan(n, p + 1, at);
      var qs :| MatchScan(n, p + 1, at, AllMatches(n, p + 1, at), qs);
      ScanSkip(n, p, at, AllMatches(n, p + 1, at), qs);
      assert MatchScan(n, p, at, AllMatches(n, p, at), qs);
    }
  }

  /**
   * The matches of a scan come in textual order and do not overlap: each
   * one ends at or before the start of the next.
   */
  ghost predicate InOrder<T>(at: nat -> Option<(T, nat)>, qs: seq<nat>)
  {
    forall i :: 0 <= i < |qs| - 1 && at(qs[i]).Some? ==> qs[i] < at(qs[i]).value.1 <= qs[i + 1]
  }

  lemma MatchScanInOrder<T>(n: nat, p: nat, at: nat -> Option<(T, nat)>, ms: seq<T>, qs: seq<nat>)
    requires forall q: nat :: at(q).Some? ==> q < at(q).value.1 <= n
    requires MatchScan(n, p, at, ms, qs)
    ensures InOrder(at, qs)
  {
    forall i | 0 <= i < |qs| - 1 && at(qs[i]).Some?
      ensures qs[i] < at(qs[i]).value.1 <= qs[i + 1]
    {
      assert SearchFrom(p, at, qs, i + 1) <= qs[i + 1];
    }
  }

  /** AllMatches scans [p, n) left to right, and its matches come in textual order. */
  lemma AllMatchesInOrder<T>(n: nat, p: nat, at: nat -> Option<(T, nat)>)
    requires p <= n
    requires forall q: nat :: at(q).Some? ==> q < at(q).value.1 <= n
    ensures exists qs :: MatchScan(n, p, at, AllMatches(n, p, at), qs) && InOrder(at, qs)
  {
    AllMatchesScan(n, p, at);
    var qs :| MatchScan(n, p, at, AllMatches(n, p, at), qs);
    MatchScanInOrder(n, p, at, AllMatches(n, p, at), qs);
  }
}
