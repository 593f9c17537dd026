/**
 * The fixed patterns of formats.go:13-25, each written as a scanner that
 * returns what Go's backtracking-free RE2 engine returns: the leftmost match,
 * and at that position the match preferred by the greedy and lazy
 * quantifiers. Lines come from a line scanner, but `.` still refuses '\n'
 * as RE2 does; negated classes such as `[^)]` accept it.
 */
module Patterns {
  import opened Wrappers
  import opened Text
  import opened Transform

  // ---------------------------------------------------------------------
  // formats.go:14   \.sig\|\|([a-zA-Z0-9]+)\(
  // ---------------------------------------------------------------------

  /** `name` is a possible capture of the call-site pattern at position `p`. */
  predicate NameMatchAt(line: string, p: nat, name: string)
  {
    && |name| > 0
    && (forall i :: 0 <= i < |name| ==> IsAlnum(name[i]))
    && HasAt(line, p, ".sig||" + name + "(")
  }

  /** The call-site pattern's capture when the match starts exactly at `p`. */
  function NameAt(line: string, p: nat): Option<string>
  {
    if HasAt(line, p, ".sig||") then
      var k := RunLen(line, p + 6, IsAlnum);
      if 0 < k && p + 6 + k < |line| && line[p + 6 + k] == '(' then Some(line[p + 6..p + 6 + k]) else None
    else None
  }

  /** A match at `p` captures exactly the maximal alphanumeric run after `.sig||`. */
  lemma NameAtIff(line: string, p: nat, name: string)
    ensures NameAt(line, p) == Some(name) <==> NameMatchAt(line, p, name)
  {
    if NameMatchAt(line, p, name) {
      NameAtComplete(line, p, name);
    }
    if NameAt(line, p) == Some(name) {
      NameAtSound(line, p);
    }
  }

  /** `.sig||`, an alphanumeric word and `(` at `p` are read back as that word. */
  lemma NameAtComplete(line: string, p: nat, name: string)
    requires NameMatchAt(line, p, name)
    ensures NameAt(line, p) == Some(name)
  {
    HasAtConcat(line, p, ".sig||" + name, "(");
    HasAtConcat(line, p, ".sig||", name);
    var e := p + 6 + |name|;
    assert line[e] == '(' by { assert line[e..e + 1] == "("; }
    forall j | p + 6 <= j < e ensures IsAlnum(line[j]) {
      assert line[j] == line[p + 6..e][j - p - 6] == name[j - p - 6];
    }
    RunLenIs(line, p + 6, IsAlnum, |name|);
  }

  /** What NameAt captures at `p` is a NameMatchAt there. */
  lemma NameAtSound(line: string, p: nat)
    requires NameAt(line, p).Some?
    ensures NameMatchAt(line, p, NameAt(line, p).value)
  {
    var name := NameAt(line, p).value;
    var e := p + 6 + |name|;
    assert HasAt(line, p + 6, name);
    assert HasAt(line, e, "(") by { assert line[e..e + 1] == [line[e]]; }
    HasAtConcat(line, p, ".sig||", name);
    HasAtConcat(line, p, ".sig||" + name, "(");
  }

  /**
   * FindStringSubmatch with the call-site pattern (formats.go:99-101): the
   * capture of the leftmost match.
   */
  function FindName(line: string): (r: Option<string>)
    ensures r.Some? ==> r.value != []
  {
    Leftmost(|line|, 0, p => NameAt(line, p))
  }

  /**
   * FindName returns the capture at the leftmost position where the pattern
   * matches, and nothing exactly when it matches nowhere.
   */
  lemma FindNameLeftmost(line: string)
    ensures FindName(line).None? <==> forall p: nat, name :: !NameMatchAt(line, p, name)
    ensures FindName(line).Some? ==>
      exists p: nat :: NameMatchAt(line, p, FindName(line).value) &&
        forall q: nat, name :: q < p ==> !NameMatchAt(line, q, name)
  {
    var at := (p: nat) => NameAt(line, p);
    var r := FindName(line);
    forall p: nat, name | NameMatchAt(line, p, name) ensures p < |line| && at(p) == Some(name) {
      NameAtIff(line, p, name);
    }
    if r.Some? {
      var p :| 0 <= p < |line| && at(p) == r && forall j :: 0 <= j < p ==> at(j).None?;
      NameAtIff(line, p, r.value);
    }
  }

  // ---------------------------------------------------------------------
  // formats.go:15   var\s+..={(.+?)};function\s+NAME\([^)]*\){(.+?)}
  // NAME is the routine's name, inserted verbatim (formats.go:111).
  // ---------------------------------------------------------------------

  /** The two groups of a body match: both non-empty and free of line breaks. */
  predicate BodyGroups(t: string, r: string)
  {
    t != [] && r != [] && AllDot(t) && AllDot(r)
  }

  /** Lazy `(.+?)}`: from `s` up to the first `}` after the group's first character. */
  function RulesGroupEnd(line: string, s: nat, e: nat): (r: Option<string>)
    requires s < e <= |line|
    requires AllDot(line[s..e])
    ensures r.Some? ==> r.value != [] && AllDot(r.value) && HasAt(line, s, r.value + "}")
    ensures r.Some? ==> forall j :: e <= j < s + |r.value| ==> line[j] != '}'
    decreases |line| - e
  {
    if e == |line| then None
    else if line[e] == '}' then
      assert line[s..e + 1] == line[s..e] + "}";
      Some(line[s..e])
    else if IsDot(line[e]) then
      assert line[s..e + 1] == line[s..e] + [line[e]];
      RulesGroupEnd(line, s, e + 1)
    else None
  }

  /** RulesGroupEnd stops at the first `}` from `e` when only `.` characters lead to it. */
  lemma RulesGroupEndAt(line: string, s: nat, e: nat, f: nat)
    requires s < e <= f < |line| && line[f] == '}'
    requires AllDot(line[s..e]) && AllDot(line[s..f])
    requires forall j :: e <= j < f ==> line[j] != '}'
    ensures RulesGroupEnd(line, s, e) == Some(line[s..f])
    decreases f - e
  {
    if e < f {
      assert IsDot(line[e]) by {
        assert line[e] == line[s..f][e - s];
      }
      assert line[s..e + 1] == line[s..e] + [line[e]];
      RulesGroupEndAt(line, s, e + 1, f);
    }
  }

  /** `\([^)]*\){(.+?)}` after the routine's name. */
  function AfterName(line: string, k: nat): (r: Option<string>)
    requires k <= |line|
    ensures r.Some? ==> r.value != [] && AllDot(r.value)
  {
    if k < |line| && line[k] == '(' then
      var c := IndexOf(line, k + 1, ')');
      if c + 2 < |line| && line[c + 1] == '{' && IsDot(line[c + 2]) then
        RulesGroupEnd(line, c + 2, c + 3)
      else None
    else None
  }

  /**
   * `\([^)]*\){(.+?)}` matches at `k` with the closing parenthesis at `c`
   * and the capture `r`: the parameter list runs to the first `)`, and the
   * lazy group is the shortest non-empty run of non-line-break characters
   * followed by `}`, so no `}` occurs in it after its first character.
   */
  predicate RulesTail(line: string, k: nat, c: nat, r: string)
  {
    && k < c && HasAt(line, c, "){" + r + "}")
    && line[k] == '('
    && (forall j :: k < j < c ==> line[j] != ')')
    && r != [] && AllDot(r)
    && (forall j :: 0 < j < |r| ==> r[j] != '}')
  }

  /** What AfterName finds is a RulesTail match. */
  lemma AfterNameSound(line: string, k: nat)
    requires k <= |line| && AfterName(line, k).Some?
    ensures RulesTail(line, k, IndexOf(line, k + 1, ')'), AfterName(line, k).value)
  {
    var r := AfterName(line, k).value;
    var c := IndexOf(line, k + 1, ')');
    assert line[c + 2..c + 3 + |r|] == r + "}";
    assert line[c + 2..c + 2 + |r|] == line[c + 2..c + 3 + |r|][..|r|] == (r + "}")[..|r|] == r;
    assert line[c..c + 3 + |r|] == "){" + r + "}" by {
      assert line[c..c + 3 + |r|] == line[c..c + 2] + line[c + 2..c + 3 + |r|];
    }
    forall j | 0 < j < |r| ensures r[j] != '}' {
      assert r[j] == line[c + 2 + j];
    }
  }

  /** A RulesTail match is what AfterName finds. */
  lemma AfterNameComplete(line: string, k: nat, c: nat, r: string)
    requires k <= |line| && RulesTail(line, k, c, r)
    ensures AfterName(line, k) == Some(r)
  {
    RulesTailParts(line, k, c, r);
    IndexOfAt(line, k + 1, ')', c);
    assert IsDot(line[c + 2]) by {
      assert line[c + 2] == r[0];
    }
    forall j | c + 3 <= j < c + 2 + |r| ensures line[j] != '}' {
      assert line[j] == r[j - c - 2];
    }
    assert line[c + 2..c + 3] == [r[0]];
    RulesGroupEndAt(line, c + 2, c + 3, c + 2 + |r|);
  }

  /** The characters a RulesTail match is made of. */
  lemma RulesTailParts(line: string, k: nat, c: nat, r: string)
    requires RulesTail(line, k, c, r)
    ensures c + 2 + |r| < |line|
    ensures line[c] == ')' && line[c + 1] == '{' && line[c + 2 + |r|] == '}'
    ensures line[c + 2..c + 2 + |r|] == r
  {
    assert "){" + r + "}" == "){" + (r + "}");
    HasAtConcat(line, c, "){", r + "}");
    HasAtConcat(line, c + 2, r, "}");
    assert line[c..c + 2] == "){";
    assert line[c + 2 + |r|..c + 3 + |r|] == "}";
  }

  /** AfterName finds exactly the RulesTail match. */
  lemma AfterNameIff(line: string, k: nat, r: string)
    requires k <= |line|
    ensures AfterName(line, k) == Some(r) <==> exists c :: RulesTail(line, k, c, r)
  {
    if AfterName(line, k) == Some(r) {
      AfterNameSound(line, k);
    }
    if c: nat :| RulesTail(line, k, c, r) {
      AfterNameComplete(line, k, c, r);
    }
  }

  /** The routine's name at `k`, then the rest of the pattern; yields the rules group. */
  function NameThen(line: string, k: nat, name: string): (r: Option<string>)
    ensures r.Some? ==> r.value != [] && AllDot(r.value)
  {
    if HasAt(line, k, name) then AfterName(line, k + |name|) else None
  }

  /** The continuation of `\s+` before the name: the name and the rest of the pattern after `w` spaces. */
  function NameAfterSpaces(line: string, j: nat, name: string): nat -> Option<string>
  {
    (w: nat) => NameThen(line, j + w, name)
  }

  /** Greedy `\s+` at `j`, then the routine's name and the rest of the pattern. */
  function SpaceThenName(line: string, j: nat, name: string): (r: Option<string>)
    requires j <= |line|
    ensures r.Some? ==> r.value != [] && AllDot(r.value)
  {
    var W := RunLen(line, j, IsSpace);
    var r := LongestFirst(W, NameAfterSpaces(line, j, name));
    assert r.Some? ==> r.value != [] && AllDot(r.value) by {
      if r.Some? {
        var v :| 1 <= v <= W && NameAfterSpaces(line, j, name)(v) == r;
        assert NameAfterSpaces(line, j, name)(v) == NameThen(line, j + v, name);
      }
    }
    r
  }

  /**
   * `\s+NAME` takes the longest run of white space after which the name
   * and the rest of the pattern match.
   */
  lemma SpaceThenNameIff(line: string, j: nat, name: string, r: string)
    requires j <= |line|
    ensures SpaceThenName(line, j, name) == Some(r) <==>
      exists w :: 1 <= w && RunOf(line, j, w, IsSpace) && NameThen(line, j + w, name) == Some(r) &&
        forall v :: w < v && RunOf(line, j, v, IsSpace) ==> NameThen(line, j + v, name).None?
  {
    var at := NameAfterSpaces(line, j, name);
    GreedyRun(line, j, IsSpace, at, r);
    if SpaceThenName(line, j, name) == Some(r) {
      var w :| 1 <= w && RunOf(line, j, w, IsSpace) && at(w) == Some(r) &&
        forall v :: w < v && RunOf(line, j, v, IsSpace) ==> at(v).None?;
      GreedyNameWitness(line, j, name, r, w);
    }
    if w :| (1 <= w && RunOf(line, j, w, IsSpace) && NameThen(line, j + w, name) == Some(r) &&
        forall v :: w < v && RunOf(line, j, v, IsSpace) ==> NameThen(line, j + v, name).None?)
    {
      GreedyNameWitness(line, j, name, r, w);
    }
  }

  /** The greedy choice of `w` spaces, read through NameAfterSpaces or directly. */
  lemma GreedyNameWitness(line: string, j: nat, name: string, r: string, w: nat)
    ensures (NameAfterSpaces(line, j, name)(w) == Some(r) &&
        forall v :: w < v && RunOf(line, j, v, IsSpace) ==> NameAfterSpaces(line, j, name)(v).None?)
      <==>
      (NameThen(line, j + w, name) == Some(r) &&
        forall v :: w < v && RunOf(line, j, v, IsSpace) ==> NameThen(line, j + v, name).None?)
  {
    var at := NameAfterSpaces(line, j, name);
    UnfoldNameAfterSpaces(line, j, name);
    if forall v :: w < v && RunOf(line, j, v, IsSpace) ==> at(v).None? {
      forall v | w < v && RunOf(line, j, v, IsSpace) ensures NameThen(line, j + v, name).None? {
        assert at(v).None?;
      }
    }
    if forall v :: w < v && RunOf(line, j, v, IsSpace) ==> NameThen(line, j + v, name).None? {
      forall v | w < v && RunOf(line, j, v, IsSpace) ensures at(v).None? {
        assert NameThen(line, j + v, name).None?;
      }
    }
  }

  /** Applying NameAfterSpaces is the continuation at that count. */
  lemma UnfoldNameAfterSpaces(line: string, j: nat, name: string)
    ensures forall v: nat :: NameAfterSpaces(line, j, name)(v) == NameThen(line, j + v, name)
  {
  }

  /** `};function\s+NAME\([^)]*\){(.+?)}` after the object group; yields the rules group. */
  function AfterObject(line: string, i: nat, name: string): (r: Option<string>)
    ensures r.Some? ==> r.value != [] && AllDot(r.value)
  {
    if HasAt(line, i, "};function") then SpaceThenName(line, i + 10, name) else None
  }

  /** The rest of the pattern after an object group that ends at `e`. */
  function ObjectRest(line: string, name: string): nat -> Option<string>
  {
    (e: nat) => AfterObject(line, e, name)
  }

  /** Lazy `(.+?)` for the object literal: the shortest group after which the rest matches. */
  function ObjectGroup(line: string, s: nat, name: string): (r: Option<(string, string)>)
    ensures r.Some? ==> BodyGroups(r.value.0, r.value.1)
  {
    ObjectRestGroup(line, name);
    ShortestGroup(line, s, s + 1, ObjectRest(line, name))
  }

  /** What follows an object group is a rules group: non-empty, without line breaks. */
  lemma ObjectRestGroup(line: string, name: string)
    ensures forall e: nat :: ObjectRest(line, name)(e).Some? ==>
      ObjectRest(line, name)(e).value != [] && AllDot(ObjectRest(line, name)(e).value)
  {
    forall e: nat | ObjectRest(line, name)(e).Some?
      ensures ObjectRest(line, name)(e).value != [] && AllDot(ObjectRest(line, name)(e).value)
    {
      assert ObjectRest(line, name)(e) == AfterObject(line, e, name);
    }
  }

  /**
   * The object group is the shortest non-empty run of non-line-break
   * characters from `s` after which the rest of the pattern matches.
   */
  lemma ObjectGroupIff(line: string, s: nat, name: string, t: string, r: string)
    ensures ObjectGroup(line, s, name) == Some((t, r)) <==>
      && t != [] && HasAt(line, s, t) && AllDot(t)
      && AfterObject(line, s + |t|, name) == Some(r)
      && forall e :: s < e < s + |t| ==> AfterObject(line, e, name).None?
  {
    ShortestGroupIff(line, s, s + 1, ObjectRest(line, name), t, r);
    ObjectRestWitness(line, s, name, t, r);
  }

  /** The lazy choice of the group `t`, read through ObjectRest or directly. */
  lemma ObjectRestWitness(line: string, s: nat, name: string, t: string, r: string)
    ensures (ObjectRest(line, name)(s + |t|) == Some(r) &&
        forall e :: s + 1 <= e < s + |t| ==> ObjectRest(line, name)(e).None?)
      <==>
      (AfterObject(line, s + |t|, name) == Some(r) &&
        forall e :: s < e < s + |t| ==> AfterObject(line, e, name).None?)
  {
    var rest := ObjectRest(line, name);
    assert rest(s + |t|) == AfterObject(line, s + |t|, name);
    if forall e :: s + 1 <= e < s + |t| ==> rest(e).None? {
      forall e | s < e < s + |t| ensures AfterObject(line, e, name).None? {
        assert rest(e).None?;
        assert rest(e) == AfterObject(line, e, name);
      }
    }
    if forall e :: s < e < s + |t| ==> AfterObject(line, e, name).None? {
      forall e | s + 1 <= e < s + |t| ensures rest(e).None? {
        assert AfterObject(line, e, name).None?;
        assert rest(e) == AfterObject(line, e, name);
      }
    }
  }

  /** `..={` at `q`, then the lazy object group and the rest of the pattern. */
  function ObjectThen(line: string, q: nat, name: string): (r: Option<(string, string)>)
    ensures r.Some? ==> BodyGroups(r.value.0, r.value.1)
  {
    if q + 4 <= |line| && IsDot(line[q]) && IsDot(line[q + 1]) && line[q + 2] == '=' && line[q + 3] == '{'
    then ObjectGroup(line, q + 4, name)
    else None
  }

  /** The continuation of `var\s+`: `..={` and the rest of the pattern after `w` spaces. */
  function ObjectAfterSpaces(line: string, j: nat, name: string): nat -> Option<(string, string)>
  {
    (w: nat) => ObjectThen(line, j + w, name)
  }

  /** Greedy `\s+` at `j`, then `..={`, the object group and the rest of the pattern. */
  function SpaceThenObject(line: string, j: nat, name: string): (r: Option<(string, string)>)
    requires j <= |line|
    ensures r.Some? ==> BodyGroups(r.value.0, r.value.1)
  {
    var W := RunLen(line, j, IsSpace);
    var r := LongestFirst(W, ObjectAfterSpaces(line, j, name));
    assert r.Some? ==> BodyGroups(r.value.0, r.value.1) by {
      if r.Some? {
        var v :| 1 <= v <= W && ObjectAfterSpaces(line, j, name)(v) == r;
        assert ObjectAfterSpaces(line, j, name)(v) == ObjectThen(line, j + v, name);
      }
    }
    r
  }

  /**
   * `var\s+..={` takes the longest run of white space after which the rest
   * of the pattern matches.
   */
  lemma SpaceThenObjectIff(line: string, j: nat, name: string, g: (string, string))
    requires j <= |line|
    ensures SpaceThenObject(line, j, name) == Some(g) <==>
      exists w :: 1 <= w && RunOf(line, j, w, IsSpace) && ObjectThen(line, j + w, name) == Some(g) &&
        forall v :: w < v && RunOf(line, j, v, IsSpace) ==> ObjectThen(line, j + v, name).None?
  {
    var at := ObjectAfterSpaces(line, j, name);
    GreedyRun(line, j, IsSpace, at, g);
    if SpaceThenObject(line, j, name) == Some(g) {
      var w :| 1 <= w && RunOf(line, j, w, IsSpace) && at(w) == Some(g) &&
        forall v :: w < v && RunOf(line, j, v, IsSpace) ==> at(v).None?;
      GreedyObjectWitness(line, j, name, g, w);
    }
    if w :| (1 <= w && RunOf(line, j, w, IsSpace) && ObjectThen(line, j + w, name) == Some(g) &&
        forall v :: w < v && RunOf(line, j, v, IsSpace) ==> ObjectThen(line, j + v, name).None?)
    {
      GreedyObjectWitness(line, j, name, g, w);
    }
  }

  /** The greedy choice of `w` spaces, read through ObjectAfterSpaces or directly. */
  lemma GreedyObjectWitness(line: string, j: nat, name: string, g: (string, string), w: nat)
    ensures (ObjectAfterSpaces(line, j, name)(w) == Some(g) &&
        forall v :: w < v && RunOf(line, j, v, IsSpace) ==> ObjectAfterSpaces(line, j, name)(v).None?)
      <==>
      (ObjectThen(line, j + w, name) == Some(g) &&
        forall v :: w < v && RunOf(line, j, v, IsSpace) ==> ObjectThen(line, j + v, name).None?)
  {
    var at := ObjectAfterSpaces(line, j, name);
    UnfoldObjectAfterSpaces(line, j, name, w);
    if forall v :: w < v && RunOf(line, j, v, IsSpace) ==> at(v).None? {
      forall v | w < v && RunOf(line, j, v, IsSpace) ensures ObjectThen(line, j + v, name).None? {
        UnfoldObjectAfterSpaces(line, j, name, v);
      }
    }
    if forall v :: w < v && RunOf(line, j, v, IsSpace) ==> ObjectThen(line, j + v, name).None? {
      forall v | w < v && RunOf(line, j, v, IsSpace) ensures at(v).None? {
        UnfoldObjectAfterSpaces(line, j, name, v);
      }
    }
  }

  /** Applying ObjectAfterSpaces is the continuation at that count. */
  lemma UnfoldObjectAfterSpaces(line: string, j: nat, name: string, v: nat)
    ensures ObjectAfterSpaces(line, j, name)(v) == ObjectThen(line, j + v, name)
  {
  }

  /** The body pattern's two captures when the match starts exactly at `p`. */
  function BodyAt(line: string, p: nat, name: string): (r: Option<(string, string)>)
    ensures r.Some? ==> BodyGroups(r.value.0, r.value.1)
  {
    if HasAt(line, p, "var") then SpaceThenObject(line, p + 3, name) else None
  }

  /** The body pattern tried at each start position of a line. */
  function BodyStarts(line: string, name: string): nat -> Option<(string, string)>
  {
    (p: nat) => BodyAt(line, p, name)
  }

  /**
   * FindStringSubmatch with the body pattern built for `name`
   * (formats.go:111-118): the captures of the leftmost match. Both captures
   * are non-empty, so the emptiness test of formats.go:123 fails exactly
   * when no line matched.
   */
  function FindBody(line: string, name: string): (r: Option<(string, string)>)
    ensures r.Some? ==> BodyGroups(r.value.0, r.value.1)
  {
    var r := Leftmost(|line|, 0, BodyStarts(line, name));
    assert r.Some? ==> BodyGroups(r.value.0, r.value.1) by {
      if r.Some? {
        var p :| 0 <= p < |line| && BodyStarts(line, name)(p) == r;
        assert BodyStarts(line, name)(p) == BodyAt(line, p, name);
      }
    }
    r
  }

  /**
   * FindBody returns the captures of the body match at the leftmost position
   * where the body pattern matches, and nothing exactly when it matches
   * nowhere.
   */
  lemma FindBodyLeftmost(line: string, name: string)
    ensures FindBody(line, name).None? <==> forall p :: BodyAt(line, p, name).None?
    ensures FindBody(line, name).Some? ==>
      exists p :: BodyAt(line, p, name) == FindBody(line, name) && forall q :: q < p ==> BodyAt(line, q, name).None?
  {
    var r := FindBody(line, name);
    if r.Some? {
      var p :| 0 <= p < |line| && BodyStarts(line, name)(p) == r &&
        forall j :: 0 <= j < p ==> BodyStarts(line, name)(j).None?;
      BodyStartsBefore(line, name, p);
    } else {
      BodyStartsBefore(line, name, |line|);
      forall p: nat | |line| <= p ensures BodyAt(line, p, name).None? {
        assert !HasAt(line, p, "var");
      }
    }
  }

  /** No body match before `p`, read through BodyStarts or directly. */
  lemma BodyStartsBefore(line: string, name: string, p: nat)
    ensures BodyStarts(line, name)(p) == BodyAt(line, p, name)
    ensures (forall j :: 0 <= j < p ==> BodyStarts(line, name)(j).None?) <==>
      (forall q: nat :: q < p ==> BodyAt(line, q, name).None?)
  {
    var at := BodyStarts(line, name);
    if forall j :: 0 <= j < p ==> at(j).None? {
      forall q: nat | q < p ensures BodyAt(line, q, name).None? {
        assert at(q).None?;
        assert at(q) == BodyAt(line, q, name);
      }
    }
    if forall q: nat :: q < p ==> BodyAt(line, q, name).None? {
      forall j | 0 <= j < p ensures at(j).None? {
        assert BodyAt(line, j, name).None?;
        assert at(j) == BodyAt(line, j, name);
      }
    }
  }

  // ---------------------------------------------------------------------
  // formats.go:17   (..):function\([^)]*\){([^}]*)}
  // ---------------------------------------------------------------------

  /** One helper-method definition `key:function(..){body}` of the object literal. */
  datatype Method = Method(key: string, body: string)

  /**
   * A method match in character terms, ending at `end`: a two-character key
   * and `:function(` at `p`, then `[^)]*` up to the first `)` after it,
   * which is followed by `{`, a body free of `}`, and the closing `}`.
   */
  predicate MethodShape(t: string, p: nat, m: Method, end: nat)
  {
    && p + 15 + |m.body| <= end <= |t|
    && |m.key| == 2 && AllDot(m.key)
    && HasAt(t, p, m.key + ":function(")
    && (forall j :: p + 12 <= j < end - |m.body| - 3 ==> t[j] != ')')
    && '}' !in m.body
    && HasAt(t, end - |m.body| - 3, "){" + m.body + "}")
  }

  /** The key part of a method match: two characters and `:function(`. */
  lemma MethodKeyShape(t: string, p: nat)
    requires p + 2 <= |t| && IsDot(t[p]) && IsDot(t[p + 1]) && HasAt(t, p + 2, ":function(")
    ensures AllDot(t[p..p + 2]) && HasAt(t, p, t[p..p + 2] + ":function(")
  {
    HasAtConcat(t, p, t[p..p + 2], ":function(");
  }

  /** The body part of a method match: `){`, text free of `}`, and `}`. */
  lemma MethodBodyShape(t: string, c: nat, d: nat)
    requires c + 1 < |t| && t[c] == ')' && t[c + 1] == '{'
    requires c + 2 <= d < |t| && IndexOf(t, c + 2, '}') == d
    ensures '}' !in t[c + 2..d] && HasAt(t, c, "){" + t[c + 2..d] + "}")
  {
    assert HasAt(t, c, "){") && HasAt(t, d, "}");
    HasAtConcat(t, c, "){", t[c + 2..d]);
    HasAtConcat(t, c, "){" + t[c + 2..d], "}");
  }

  /** The pieces the method pattern checks make a match of that shape. */
  lemma MethodShapeOf(t: string, p: nat, c: nat, d: nat)
    requires p + 2 <= |t| && IsDot(t[p]) && IsDot(t[p + 1]) && HasAt(t, p + 2, ":function(")
    requires IndexOf(t, p + 12, ')') == c && c + 1 < |t| && t[c + 1] == '{'
    requires c + 2 <= d < |t| && IndexOf(t, c + 2, '}') == d
    ensures MethodShape(t, p, Method(t[p..p + 2], t[c + 2..d]), d + 1)
  {
    MethodKeyShape(t, p);
    MethodBodyShape(t, c, d);
  }

  /** The method pattern's match starting exactly at `p`, with the position after it. */
  function MethodAt(t: string, p: nat): (r: Option<(Method, nat)>)
    ensures r.Some? ==> MethodShape(t, p, r.value.0, r.value.1)
  {
    if p + 2 <= |t| && IsDot(t[p]) && IsDot(t[p + 1]) && HasAt(t, p + 2, ":function(") then
      var c := IndexOf(t, p + 12, ')');
      if c + 1 < |t| && t[c + 1] == '{' then
        var d := IndexOf(t, c + 2, '}');
        if d < |t| then
          MethodShapeOf(t, p, c, d);
          Some((Method(t[p..p + 2], t[c + 2..d]), d + 1))
        else None
      else None
    else None
  }

  /** The pieces of a MethodShape at `c`, the closing parenthesis. */
  lemma MethodShapeParts(t: string, p: nat, m: Method, end: nat)
    requires MethodShape(t, p, m, end)
    ensures var c := end - |m.body| - 3;
      && t[p..p + 2] == m.key && HasAt(t, p + 2, ":function(")
      && t[c] == ')' && t[c + 1] == '{' && t[c + 2..end - 1] == m.body && t[end - 1] == '}'
  {
    var c := end - |m.body| - 3;
    HasAtConcat(t, p, m.key, ":function(");
    HasAtConcat(t, c, "){" + m.body, "}");
    HasAtConcat(t, c, "){", m.body);
    assert t[c..c + 2] == "){";
  }

  /**
   * The method pattern matches at `p` exactly in the shape of MethodShape:
   * `[^)]*` and `[^}]*` leave no choice, so the match is unique.
   */
  lemma MethodAtIff(t: string, p: nat, m: Method, end: nat)
    ensures MethodAt(t, p) == Some((m, end)) <==> MethodShape(t, p, m, end)
  {
    if MethodShape(t, p, m, end) {
      MethodAtOfShape(t, p, m, end);
    }
  }

  /** A method in the shape of MethodShape is what the pattern reads at `p`. */
  lemma MethodAtOfShape(t: string, p: nat, m: Method, end: nat)
    requires MethodShape(t, p, m, end)
    ensures MethodAt(t, p) == Some((m, end))
  {
    var c := end - |m.body| - 3;
    var d := end - 1;
    MethodShapeParts(t, p, m, end);
    assert IsDot(t[p]) && IsDot(t[p + 1]) by {
      assert t[p] == m.key[0] && t[p + 1] == m.key[1];
    }
    MethodShapeEnds(t, p, m, end);
    assert Method(t[p..p + 2], t[c + 2..d]) == m;
    MethodAtFrom(t, p, c, d);
  }

  /** The method pattern at `p` when its two scans stop at `c` and `d`. */
  lemma MethodAtFrom(t: string, p: nat, c: nat, d: nat)
    requires p + 2 <= |t| && IsDot(t[p]) && IsDot(t[p + 1]) && HasAt(t, p + 2, ":function(")
    requires IndexOf(t, p + 12, ')') == c && c + 1 < |t| && t[c + 1] == '{'
    requires IndexOf(t, c + 2, '}') == d && d < |t|
    ensures MethodAt(t, p) == Some((Method(t[p..p + 2], t[c + 2..d]), d + 1))
  {
  }

  /** Where the two scans of the method pattern stop in a MethodShape. */
  lemma MethodShapeEnds(t: string, p: nat, m: Method, end: nat)
    requires MethodShape(t, p, m, end)
    ensures IndexOf(t, p + 12, ')') == end - |m.body| - 3
    ensures IndexOf(t, end - |m.body| - 1, '}') == end - 1
  {
    var c := end - |m.body| - 3;
    MethodShapeParts(t, p, m, end);
    IndexOfAt(t, p + 12, ')', c);
    NoBraceIn(t, c + 2, end - 1, m.body);
    IndexOfAt(t, c + 2, '}', end - 1);
  }

  /** A stretch of text equal to a word without `}` holds no `}`. */
  lemma NoBraceIn(t: string, i: nat, d: nat, w: string)
    requires i <= d <= |t| && t[i..d] == w && '}' !in w
    ensures forall j :: i <= j < d ==> t[j] != '}'
  {
    forall j | i <= j < d ensures t[j] != '}' {
      assert t[j] == w[j - i];
    }
  }

  /** The method pattern tried at each start position of the object literal. */
  function MethodStarts(t: string): nat -> Option<(Method, nat)>
  {
    (p: nat) => MethodAt(t, p)
  }

  /** FindAllStringSubmatch with the method pattern (formats.go:128). */
  function FindMethods(t: string): seq<Method>
  {
    AllMatches(|t|, 0, MethodStarts(t))
  }

  /**
   * FindMethods reports, in textual order, the methods that start at
   * positions `qs`, each search resuming where the previous match ended,
   * with no match skipped on the way.
   */
  lemma FindMethodsInOrder(t: string)
    ensures exists qs :: MatchScan(|t|, 0, MethodStarts(t), FindMethods(t), qs) && InOrder(MethodStarts(t), qs)
  {
    AllMatchesInOrder(|t|, 0, MethodStarts(t));
  }

  /** decodeTransformationList: the markers in priority order (formats.go:21-25). */
  const Markers: seq<(string, Op)> := [(".reverse(", Reverse), (".splice(", Slice), ("var c=", Swap)]

  /** The operation of the first marker from position `i` of Markers that `body` contains. */
  function ClassifyFrom(body: string, i: nat): Option<Op>
    decreases |Markers| - i
  {
    if i >= |Markers| then None
    else if Contains(body, Markers[i].0) then Some(Markers[i].1)
    else ClassifyFrom(body, i + 1)
  }

  /** The inner loop of formats.go:142-148: the first marker the body contains decides. */
  function Classify(body: string): Option<Op>
  {
    ClassifyFrom(body, 0)
  }

  /**
   * The priority order: a reverse marker wins over a splice marker, which
   * wins over the swap marker; a body with none of them is unclassified.
   */
  lemma ClassifyPriority(body: string)
    ensures Classify(body) ==
      if Contains(body, ".reverse(") then Some(Reverse)
      else if Contains(body, ".splice(") then Some(Slice)
      else if Contains(body, "var c=") then Some(Swap)
      else None
  {
  }

  // ---------------------------------------------------------------------
  // formats.go:18   ..\.(..)\([^,]+,(\d+)\)
  // ---------------------------------------------------------------------

  /** One rule: a call `xx.key(<anything without a comma>,index)` of the routine's body. */
  datatype Rule = Rule(key: string, index: nat)

  /** The rule pattern's match starting exactly at `p`, with the position after it. */
  function RuleAt(t: string, p: nat): (r: Option<(Rule, nat)>)
    ensures r.Some? ==> p < r.value.1 <= |t|
    ensures r.Some? ==>
      && |r.value.0.key| == 2 && AllDot(r.value.0.key)
      && HasAt(t, p + 2, "." + r.value.0.key + "(")
      && t[r.value.1 - 1] == ')'
  {
    if p + 6 <= |t| && IsDot(t[p]) && IsDot(t[p + 1]) && t[p + 2] == '.' && IsDot(t[p + 3]) && IsDot(t[p + 4]) && t[p + 5] == '(' then
      var c := IndexOf(t, p + 6, ',');
      if p + 6 < c < |t| then
        var k := RunLen(t, c + 1, IsDigit);
        if 0 < k && c + 1 + k < |t| && t[c + 1 + k] == ')' then
          var rule := Rule(t[p + 3..p + 5], DecimalValue(t[c + 1..c + 1 + k]));
          assert t[p + 2..p + 6] == "." + rule.key + "(";
          Some((rule, c + 2 + k))
        else None
      else None
    else None
  }

  /**
   * A rule match in character terms, with its comma at `c` and ending at
   * `end`: two characters, `.`, the two-character key and `(` at `p`;
   * `[^,]+` up to the first comma; `(\d+)` a digit run closed by `)`.
   */
  predicate RuleMatch(t: string, p: nat, c: nat, rule: Rule, end: nat)
  {
    && p + 6 < c && c + 2 < end <= |t|
    && IsDot(t[p]) && IsDot(t[p + 1]) && t[p + 2] == '.'
    && IsDot(t[p + 3]) && IsDot(t[p + 4]) && t[p + 3..p + 5] == rule.key
    && t[p + 5] == '('
    && (forall j :: p + 6 <= j < c ==> t[j] != ',')
    && t[c] == ','
    && (forall j :: c + 1 <= j < end - 1 ==> IsDigit(t[j]))
    && t[end - 1] == ')'
    && rule.index == DecimalValue(t[c + 1..end - 1])
  }

  /** The comma of a rule match is the first one after the parenthesis. */
  lemma RuleAtSound(t: string, p: nat)
    requires RuleAt(t, p).Some?
    ensures RuleMatch(t, p, IndexOf(t, p + 6, ','), RuleAt(t, p).value.0, RuleAt(t, p).value.1)
  {
  }

  /** A RuleMatch is the match RuleAt finds. */
  lemma RuleAtComplete(t: string, p: nat, c: nat, rule: Rule, end: nat)
    requires RuleMatch(t, p, c, rule, end)
    ensures RuleAt(t, p) == Some((rule, end))
  {
    IndexOfAt(t, p + 6, ',', c);
    var k := end - c - 2;
    RunLenIs(t, c + 1, IsDigit, k);
    RuleAtPieces(t, p, c, k);
  }

  /** RuleAt once its comma and digit run are known. */
  lemma RuleAtPieces(t: string, p: nat, c: nat, k: nat)
    requires p + 6 <= |t| && IsDot(t[p]) && IsDot(t[p + 1]) && t[p + 2] == '.'
    requires IsDot(t[p + 3]) && IsDot(t[p + 4]) && t[p + 5] == '('
    requires p + 6 < c < |t| && IndexOf(t, p + 6, ',') == c
    requires 0 < k && c + 1 + k < |t| && RunLen(t, c + 1, IsDigit) == k && t[c + 1 + k] == ')'
    ensures RuleAt(t, p) == Some((Rule(t[p + 3..p + 5], DecimalValue(t[c + 1..c + 1 + k])), c + 2 + k))
  {
  }

  /**
   * The rule pattern matches at `p` exactly in the shape of RuleMatch: the
   * comma is the first one, and the digit run is the whole run, since a
   * `)` is not a digit.
   */
  lemma RuleAtIff(t: string, p: nat, rule: Rule, end: nat)
    ensures RuleAt(t, p) == Some((rule, end)) <==> exists c :: RuleMatch(t, p, c, rule, end)
  {
    if RuleAt(t, p) == Some((rule, end)) {
      RuleAtSound(t, p);
    }
    if c: nat :| RuleMatch(t, p, c, rule, end) {
      RuleAtComplete(t, p, c, rule, end);
    }
  }

  /** The rule pattern tried at each start position of the routine's body. */
  function RuleStarts(t: string): nat -> Option<(Rule, nat)>
  {
    (p: nat) => RuleAt(t, p)
  }

  /** FindAllStringSubmatch with the rule pattern (formats.go:160). */
  function FindRules(t: string): seq<Rule>
  {
    AllMatches(|t|, 0, RuleStarts(t))
  }

  /**
   * FindRules reports the rules in the order the calls appear in the body:
   * the i-th rule is the call at qs[i], the calls do not overlap, and no
   * call is skipped between them.
   */
  lemma FindRulesInOrder(t: string)
    ensures exists qs :: MatchScan(|t|, 0, RuleStarts(t), FindRules(t), qs) && InOrder(RuleStarts(t), qs)
  {
    AllMatchesInOrder(|t|, 0, RuleStarts(t));
  }

  // ---------------------------------------------------------------------
  // Round trips: text written in the shapes the patterns look for is read
  // back as what it was written from
  // ---------------------------------------------------------------------


  /** The text `key:function(params){body}` of one helper-method definition. */
  function Definition(m: Method, params: string): (d: string)
    ensures |d| == |m.key| + |params| + |m.body| + 13
  {
    m.key + ":function(" + params + "){" + m.body + "}"
  }

  /** A helper method FindMethods reads back from its definition. */
  predicate Readable(m: Method, params: string)
  {
    && |m.key| == 2 && AllDot(m.key) && '}' !in m.key
    && ')' !in params && '}' !in params && '\n' !in params
    && '}' !in m.body && '\n' !in m.body
  }

  /** The object literal's inside: definitions separated by `,`. */
  function ObjectText(ds: seq<(Method, string)>): string
    requires ds != []
  {
    if |ds| == 1 then Definition(ds[0].0, ds[0].1)
    else Definition(ds[0].0, ds[0].1) + "," + ObjectText(ds[1..])
  }

  function MethodsOf(ds: seq<(Method, string)>): (ms: seq<Method>)
    ensures |ms| == |ds| && forall i :: 0 <= i < |ds| ==> ms[i] == ds[i].0
  {
    if ds == [] then [] else [ds[0].0] + MethodsOf(ds[1..])
  }

  /** A helper-method definition is read as that method. */
  lemma MethodDefinedAt(t: string, p: nat, m: Method, params: string)
    requires Readable(m, params) && HasAt(t, p, Definition(m, params))
    ensures MethodStarts(t)(p) == Some((m, p + |Definition(m, params)|))
  {
    DefinitionShape(t, p, m, params);
    MethodAtIff(t, p, m, p + |Definition(m, params)|);
    assert MethodStarts(t)(p) == MethodAt(t, p);
  }

  /** A definition written at `p` has the shape of a method match. */
  lemma DefinitionShape(t: string, p: nat, m: Method, params: string)
    requires |m.key| == 2 && AllDot(m.key) && ')' !in params && '}' !in m.body
    requires HasAt(t, p, Definition(m, params))
    ensures MethodShape(t, p, m, p + |Definition(m, params)|)
  {
    var a := m.key + ":function(";
    var b := "){" + m.body + "}";
    assert Definition(m, params) == a + params + b;
    HasAtConcat(t, p, a + params, b);
    HasAtConcat(t, p, a, params);
    forall j | p + 12 <= j < p + 12 + |params| ensures t[j] != ')' {
      assert t[j] == t[p + 12..p + 12 + |params|][j - p - 12];
    }
  }

  lemma MethodsNext(t: string, p: nat, m: Method, e: nat)
    requires MethodStarts(t)(p) == Some((m, e))
    ensures AllMatches(|t|, p, MethodStarts(t)) == [m] + AllMatches(|t|, e, MethodStarts(t))
  {
  }

  /** No method match starts at the `,` before a key: `:function(` would need `f` where the key's `:` is. */
  lemma MethodsSkipComma(t: string, p: nat)
    requires p + 3 < |t| && t[p + 3] == ':'
    ensures AllMatches(|t|, p, MethodStarts(t)) == AllMatches(|t|, p + 1, MethodStarts(t))
  {
    assert MethodStarts(t)(p) == MethodAt(t, p);
    MismatchAt(t, p + 2, ":function(", 1);
  }

  /**
   * FindMethods reads an object literal written from readable definitions
   * back as its methods, in order.
   */
  lemma {:induction false} ObjectTextMethods(t: string, p: nat, ds: seq<(Method, string)>)
    requires ds != [] && forall i :: 0 <= i < |ds| ==> Readable(ds[i].0, ds[i].1)
    requires HasAt(t, p, ObjectText(ds)) && p + |ObjectText(ds)| == |t|
    ensures AllMatches(|t|, p, MethodStarts(t)) == MethodsOf(ds)
    decreases |ds|
  {
    var d := Definition(ds[0].0, ds[0].1);
    assert Readable(ds[0].0, ds[0].1);
    if |ds| == 1 {
      MethodDefinedAt(t, p, ds[0].0, ds[0].1);
      MethodsNext(t, p, ds[0].0, |t|);
    } else {
      var rest := ObjectText(ds[1..]);
      HasAtConcat(t, p, d + ",", rest);
      HasAtConcat(t, p, d, ",");
      MethodDefinedAt(t, p, ds[0].0, ds[0].1);
      MethodsNext(t, p, ds[0].0, p + |d|);
      ColonAfterKey(t, p + |d| + 1, ds[1..]);
      MethodsSkipComma(t, p + |d|);
      ObjectTextMethods(t, p + |d| + 1, ds[1..]);
    }
  }

  lemma ColonAfterKey(t: string, p: nat, ds: seq<(Method, string)>)
    requires ds != [] && Readable(ds[0].0, ds[0].1) && HasAt(t, p, ObjectText(ds))
    ensures p + 2 < |t| && t[p + 2] == ':'
  {
    var d := Definition(ds[0].0, ds[0].1);
    assert d[2] == ':';
    assert ObjectText(ds)[2] == d[2];
    assert t[p + 2] == ObjectText(ds)[2];
  }


  /** `name(params){body}`: the routine's definition after `function `. */
  function RoutineText(name: string, params: string, body: string): string
  {
    name + "(" + params + "){" + body + "}"
  }

  /** `};function name(params){body}`: the end of the helper object and the routine. */
  function ClosingText(name: string, params: string, body: string): string
  {
    "};function " + RoutineText(name, params, body)
  }

  /** `helper={obj};function name(params){body}`: what follows `var `. */
  function DeclText(helper: string, obj: string, name: string, params: string, body: string): string
  {
    helper + "={" + obj + ClosingText(name, params, body)
  }

  /** A routine body the rules group captures whole. */
  predicate ReadableBody(params: string, body: string)
  {
    ')' !in params && body != [] && AllDot(body) && '}' !in body
  }

  lemma NameThenText(line: string, k: nat, name: string, params: string, body: string)
    requires ReadableBody(params, body)
    requires HasAt(line, k, RoutineText(name, params, body))
    ensures NameThen(line, k, name) == Some(body)
  {
    var a := k + |name|;
    var c := a + 1 + |params|;
    assert RoutineText(name, params, body) == name + ("(" + params) + ("){" + body + "}");
    HasAtConcat(line, k, name + ("(" + params), "){" + body + "}");
    HasAtConcat(line, k, name, "(" + params);
    HasAtConcat(line, a, "(", params);
    assert line[a] == line[a..a + 1][0];
    forall j | a < j < c ensures line[j] != ')' {
      assert line[j] == line[a + 1..c][j - a - 1];
    }
    forall j | 0 < j < |body| ensures body[j] != '}' {
    }
    assert RulesTail(line, a, c, body);
    AfterNameIff(line, a, body);
  }

  lemma AfterObjectText(line: string, i: nat, name: string, params: string, body: string)
    requires ReadableBody(params, body) && name != [] && !IsSpace(name[0])
    requires HasAt(line, i, ClosingText(name, params, body))
    ensures AfterObject(line, i, name) == Some(body)
  {
    var r := RoutineText(name, params, body);
    assert ClosingText(name, params, body) == "};function" + (" " + r);
    HasAtConcat(line, i, "};function", " " + r);
    HasAtConcat(line, i + 10, " ", r);
    NameThenText(line, i + 11, name, params, body);
    assert line[i + 10] == line[i + 10..i + 11][0];
    assert line[i + 11] == name[0] by {
      assert line[i + 11] == line[i + 11..i + 11 + |r|][0];
    }
    SpaceThenNameOne(line, i + 10, name, body);
  }

  /** No `};` inside the helper object, so the lazy group runs to its end. */
  predicate ReadableObject(obj: string)
  {
    obj != [] && AllDot(obj) && forall i :: 0 <= i < |obj| - 1 && obj[i] == '}' ==> obj[i + 1] != ';'
  }

  lemma ObjectThenText(line: string, q: nat, helper: string, obj: string, name: string, params: string, body: string)
    requires |helper| == 2 && AllDot(helper) && ReadableObject(obj)
    requires ReadableBody(params, body) && name != [] && !IsSpace(name[0])
    requires HasAt(line, q, DeclText(helper, obj, name, params, body))
    ensures ObjectThen(line, q, name) == Some((obj, body))
  {
    var tail := ClosingText(name, params, body);
    var s := q + 4;
    HasAtConcat(line, q, (helper + "={") + obj, tail);
    HasAtConcat(line, q, helper + "={", obj);
    assert line[q..q + 4] == helper + "={";
    assert line[q] == helper[0] && line[q + 1] == helper[1] && line[q + 2] == '=' && line[q + 3] == '{';
    AfterObjectText(line, s + |obj|, name, params, body);
    assert line[s + |obj|] == tail[0] by { assert line[s + |obj|] == line[s + |obj|..s + |obj| + |tail|][0]; }
    ObjectRunsToEnd(line, s, obj, name);
    ObjectGroupIff(line, s, name, obj, body);
  }

  /** Inside a readable object no `};function` starts, so the lazy group cannot stop early. */
  lemma ObjectRunsToEnd(line: string, s: nat, obj: string, name: string)
    requires ReadableObject(obj) && HasAt(line, s, obj) && s + |obj| < |line| && line[s + |obj|] == '}'
    ensures forall e :: s < e < s + |obj| ==> AfterObject(line, e, name).None?
  {
    forall e | s < e < s + |obj| ensures AfterObject(line, e, name).None? {
      assert line[e] == obj[e - s] by { assert line[e] == line[s..s + |obj|][e - s]; }
      if line[e] != '}' {
        MismatchAt(line, e, "};function", 0);
      } else if e + 1 < s + |obj| {
        assert line[e + 1] == obj[e + 1 - s] by { assert line[e + 1] == line[s..s + |obj|][e + 1 - s]; }
        MismatchAt(line, e, "};function", 1);
      } else {
        MismatchAt(line, e, "};function", 1);
      }
    }
  }

  /** `var helper={obj};function name(params){body}`: one line declaring the helper object and the routine. */
  function BodyText(helper: string, obj: string, name: string, params: string, body: string): string
  {
    "var " + DeclText(helper, obj, name, params, body)
  }

  lemma BodyAtText(line: string, p: nat, helper: string, obj: string, name: string, params: string, body: string)
    requires |helper| == 2 && AllDot(helper) && !IsSpace(helper[0]) && ReadableObject(obj)
    requires ReadableBody(params, body) && name != [] && !IsSpace(name[0])
    requires HasAt(line, p, BodyText(helper, obj, name, params, body))
    ensures BodyAt(line, p, name) == Some((obj, body))
  {
    var rest := DeclText(helper, obj, name, params, body);
    HasAtConcat(line, p, "var ", rest);
    ObjectThenText(line, p + 4, helper, obj, name, params, body);
    assert line[p + 4] == helper[0] by { assert line[p + 4] == line[p + 4..p + 4 + |rest|][0]; }
    BodyAtOne(line, p, name, (obj, body));
  }

  lemma BodyAtOne(line: string, p: nat, name: string, g: (string, string))
    requires HasAt(line, p, "var ") && p + 4 < |line| && !IsSpace(line[p + 4])
    requires ObjectThen(line, p + 4, name) == Some(g)
    ensures BodyAt(line, p, name) == Some(g)
  {
    assert "var " == "var" + " ";
    HasAtConcat(line, p, "var", " ");
    assert line[p + 3] == line[p + 3..p + 4][0];
    SpaceThenObjectOne(line, p + 3, name, g);
  }

  /** FindBody reports the match at `p` when none starts before it. */
  lemma FindBodyAt(line: string, name: string, p: nat)
    requires BodyAt(line, p, name).Some? && forall q: nat :: q < p ==> BodyAt(line, q, name).None?
    ensures FindBody(line, name) == BodyAt(line, p, name)
  {
    FindBodyLeftmost(line, name);
  }

  /**
   * A line declaring a readable helper object and routine is read back by
   * the body pattern as the object's inside and the routine's body.
   */
  lemma {:induction false} BodyTextRoundTrip(helper: string, obj: string, name: string, params: string, body: string)
    requires |helper| == 2 && AllDot(helper) && !IsSpace(helper[0]) && ReadableObject(obj)
    requires ReadableBody(params, body) && name != [] && forall i :: 0 <= i < |name| ==> IsAlnum(name[i])
    ensures FindBody(BodyText(helper, obj, name, params, body), name) == Some((obj, body))
  {
    assert IsAlnum(name[0]);
    var line := BodyText(helper, obj, name, params, body);
    BodyAtText(line, 0, helper, obj, name, params, body);
    FindBodyAt(line, name, 0);
  }

  /** A single space before a non-space: `\s+` takes exactly one character. */
  lemma OneSpace(line: string, j: nat)
    requires j + 1 < |line| && line[j] == ' ' && !IsSpace(line[j + 1])
    ensures RunOf(line, j, 1, IsSpace)
    ensures forall v :: 1 < v ==> !RunOf(line, j, v, IsSpace)
  {
    forall v | 1 < v ensures !RunOf(line, j, v, IsSpace) {
      if j + v <= |line| {
        assert !IsSpace(line[j + 1]);
      }
    }
  }

  lemma SpaceThenObjectOne(line: string, j: nat, name: string, g: (string, string))
    requires j + 1 < |line| && line[j] == ' ' && !IsSpace(line[j + 1])
    requires ObjectThen(line, j + 1, name) == Some(g)
    ensures SpaceThenObject(line, j, name) == Some(g)
  {
    OneSpace(line, j);
    SpaceThenObjectIff(line, j, name, g);
  }

  lemma SpaceThenNameOne(line: string, j: nat, name: string, r: string)
    requires j + 1 < |line| && line[j] == ' ' && !IsSpace(line[j + 1])
    requires NameThen(line, j + 1, name) == Some(r)
    ensures SpaceThenName(line, j, name) == Some(r)
  {
    OneSpace(line, j);
    SpaceThenNameIff(line, j, name, r);
  }

  /** The only `}` of a readable definition is its last character, and it has no line break. */
  lemma DefinitionPlain(m: Method, params: string)
    requires Readable(m, params)
    ensures var d := Definition(m, params);
      AllDot(d) && d[|d| - 1] == '}' && forall i :: 0 <= i < |d| - 1 ==> d[i] != '}'
  {
    var d := Definition(m, params);
    var front := m.key + ":function(" + params + "){" + m.body;
    assert d == front + "}";
    assert '}' !in front && '\n' !in front;
    forall i | 0 <= i < |d| - 1 ensures d[i] != '}' {
      assert d[i] == front[i];
    }
    forall i | 0 <= i < |d| ensures IsDot(d[i]) {
      if i < |d| - 1 {
        assert d[i] == front[i];
      }
    }
  }

  /** The inside of an object literal written from readable definitions is a readable object. */
  lemma {:induction false} ObjectTextPlain(ds: seq<(Method, string)>)
    requires ds != [] && forall i :: 0 <= i < |ds| ==> Readable(ds[i].0, ds[i].1)
    ensures ReadableObject(ObjectText(ds))
    decreases |ds|
  {
    var d := Definition(ds[0].0, ds[0].1);
    assert Readable(ds[0].0, ds[0].1);
    DefinitionPlain(ds[0].0, ds[0].1);
    if |ds| > 1 {
      var rest := ObjectText(ds[1..]);
      var t := ObjectText(ds);
      ObjectTextPlain(ds[1..]);
      assert t == d + "," + rest;
      forall i | 0 <= i < |t| ensures IsDot(t[i]) {
        if i < |d| {
          assert t[i] == d[i];
        } else if i > |d| {
          assert t[i] == rest[i - |d| - 1];
        }
      }
      forall i | 0 <= i < |t| - 1 && t[i] == '}' ensures t[i + 1] != ';' {
        if i < |d| {
          assert t[i] == d[i] && i == |d| - 1;
        } else {
          assert t[i] == rest[i - |d| - 1] && t[i + 1] == rest[i - |d|];
        }
      }
    }
  }

  /** FindMethods reads an object literal written from readable definitions back as its methods. */
  lemma {:induction false} ObjectTextRoundTrip(ds: seq<(Method, string)>)
    requires ds != [] && forall i :: 0 <= i < |ds| ==> Readable(ds[i].0, ds[i].1)
    ensures FindMethods(ObjectText(ds)) == MethodsOf(ds)
  {
    var t := ObjectText(ds);
    assert t[0..|t|] == t;
    ObjectTextMethods(t, 0, ds);
  }
}
