/**
 * decodeSignature (formats.go:85-197): find the routine's name, its helper
 * object and body, classify the helper methods, read the rule calls and run
 * them on the signature. `Extract` and `Decode` state the whole computation
 * as functions; `DecodeSignature` is the step-by-step procedure of the Go
 * code, proved to compute `Decode`.
 */
module Decoder {
  import opened Wrappers
  import opened Text
  import opened Utils
  import opened Transform
  import opened Patterns

  /** The errors decodeSignature returns, in the order its checks appear. */
  datatype DecodeError =
    | PlayerDataEmpty              // "Could not decode signature: player data empty"
    | FuncNameNotFound             // "Could not find decode signature function name"
    | TransformationsNotRead       // "Could not read signature transformations"
    | TransformationsNotFound      // "Could not find signature transformations"
    | UnknownTransformation        // "Unknown tranformation found"
    | RulesNotFound                // "Could not find signature rules"
    | InvalidTransformationMethod  // "Invalid transformation method"

  // ---------------------------------------------------------------------
  // Line search (formats.go:94-104 and 114-121)
  // ---------------------------------------------------------------------

  /**
   * The first line on which `m` finds a match, with its index: the scan that
   * stops at the first match.
   */
  function FirstMatch<T>(lines: seq<string>, m: string -> Option<T>): (r: Option<(T, nat)>)
    ensures r.Some? ==>
      && r.value.1 < |lines|
      && m(lines[r.value.1]) == Some(r.value.0)
      && forall j :: 0 <= j < r.value.1 ==> m(lines[j]).None?
    ensures r.None? ==> forall j :: 0 <= j < |lines| ==> m(lines[j]).None?
  {
    if lines == [] then None
    else
      var init := lines[..|lines| - 1];
      match FirstMatch(init, m)
      case Some(x) => Some(x)
      case None =>
        match m(lines[|lines| - 1])
        case Some(v) => Some((v, |lines| - 1))
        case None => None
  }

  /** The first line that matches, found by a scan, is the one FirstMatch reports. */
  lemma FirstMatchAt<T>(lines: seq<string>, m: string -> Option<T>, i: nat)
    requires i < |lines| && m(lines[i]).Some?
    requires forall j :: 0 <= j < i ==> m(lines[j]).None?
    ensures FirstMatch(lines, m) == Some((m(lines[i]).value, i))
  {
  }

  /** A scan that meets no matching line leaves FirstMatch empty. */
  lemma FirstMatchNone<T>(lines: seq<string>, m: string -> Option<T>)
    requires forall j :: 0 <= j < |lines| ==> m(lines[j]).None?
    ensures FirstMatch(lines, m).None?
  {
  }

  /** A first match stays the first match when lines are added after it. */
  lemma {:induction false} FirstMatchPrefix<T>(lines: seq<string>, m: string -> Option<T>, n: nat)
    requires FirstMatch(lines, m).Some? && FirstMatch(lines, m).value.1 < n <= |lines|
    ensures FirstMatch(lines[..n], m) == FirstMatch(lines, m)
    decreases |lines|
  {
    if n < |lines| {
      var init := lines[..|lines| - 1];
      assert lines[..n] == init[..n];
      FirstMatchPrefix(init, m, n);
    }
  }

  /** The body pattern for the routine `name`, as a per-line matcher. */
  function BodyMatcher(name: string): string -> Option<(string, string)>
  {
    line => FindBody(line, name)
  }

  // ---------------------------------------------------------------------
  // The method table (formats.go:128-157)
  // ---------------------------------------------------------------------

  /**
   * The `trans` map built by the loop of formats.go:134-153: each method in
   * turn is classified and stored under its key, later definitions of a key
   * replacing earlier ones; one unclassified method fails the whole table.
   */
  function BuildTable(ms: seq<Method>): (r: Result<map<string, Op>, DecodeError>)
  {
    if ms == [] then Ok(map[])
    else
      match BuildTable(ms[..|ms| - 1])
      case Err(e) => Err(e)
      case Ok(table) =>
        match Classify(ms[|ms| - 1].body)
        case None => Err(UnknownTransformation)
        case Some(op) => Ok(table[ms[|ms| - 1].key := op])
  }

  /**
   * The table is built exactly when every method body carries a marker;
   * otherwise the error is UnknownTransformation.
   */
  lemma {:induction false} BuildTableOk(ms: seq<Method>)
    ensures BuildTable(ms).Ok? <==> forall i :: 0 <= i < |ms| ==> Classify(ms[i].body).Some?
    ensures BuildTable(ms).Err? ==> BuildTable(ms).error == UnknownTransformation
  {
    if ms != [] {
      var init := ms[..|ms| - 1];
      BuildTableOk(init);
      assert forall i :: 0 <= i < |init| ==> init[i] == ms[i];
    }
  }

  /** The table's keys are the methods' keys, so it is empty only when there were no methods. */
  lemma {:induction false} BuildTableKeys(ms: seq<Method>)
    requires BuildTable(ms).Ok?
    ensures forall key :: key in BuildTable(ms).value <==> exists i :: 0 <= i < |ms| && ms[i].key == key
    ensures BuildTable(ms).value == map[] <==> ms == []
  {
    if ms != [] {
      var init := ms[..|ms| - 1];
      BuildTableKeys(init);
      var table := BuildTable(ms).value;
      assert ms[|ms| - 1].key in table;
      forall key ensures key in table <==> exists i :: 0 <= i < |ms| && ms[i].key == key {
        if key in table && key != ms[|ms| - 1].key {
          var i :| 0 <= i < |init| && init[i].key == key;
          assert ms[i].key == key;
        }
        if exists i :: 0 <= i < |ms| && ms[i].key == key {
          var i :| 0 <= i < |ms| && ms[i].key == key;
          if i < |init| { assert init[i].key == key; }
        }
      }
    }
  }

  /** Each key maps to the operation of its last definition. */
  lemma {:induction false} BuildTableLastWins(ms: seq<Method>, i: nat)
    requires BuildTable(ms).Ok?
    requires i < |ms| && forall j :: i < j < |ms| ==> ms[j].key != ms[i].key
    ensures ms[i].key in BuildTable(ms).value
    ensures Classify(ms[i].body).Some? && BuildTable(ms).value[ms[i].key] == Classify(ms[i].body).value
  {
    var init := ms[..|ms| - 1];
    if i < |init| {
      assert init[i] == ms[i];
      forall j | i < j < |init| ensures init[j].key != init[i].key { assert init[j] == ms[j]; }
      BuildTableLastWins(init, i);
    }
  }

  // ---------------------------------------------------------------------
  // Running the rules (formats.go:165-194)
  // ---------------------------------------------------------------------

  /**
   * The rules loop reaches no panic: each rule it executes before stopping
   * at the first unknown key has an index the step can take.
   */
  predicate Safe(table: map<string, Op>, rules: seq<Rule>, s: string)
    decreases |rules|
  {
    || rules == []
    || rules[0].key !in table
    || (var op := table[rules[0].key];
        Applicable(op, rules[0].index, s) && Safe(table, rules[1..], Apply(op, rules[0].index, s)))
  }

  /**
   * The rules loop: each rule in textual order looks up its key and applies
   * the operation; an unknown key ends the loop with an error and no
   * signature.
   */
  function Run(table: map<string, Op>, rules: seq<Rule>, s: string): (r: Result<string, DecodeError>)
    requires Safe(table, rules, s)
    decreases |rules|
  {
    if rules == [] then Ok(s)
    else if rules[0].key !in table then Err(InvalidTransformationMethod)
    else
      var op := table[rules[0].key];
      Run(table, rules[1..], Apply(op, rules[0].index, s))
  }

  /** Running fails exactly when some rule names a key the table lacks. */
  lemma {:induction false} RunFailsIffUnknownKey(table: map<string, Op>, rules: seq<Rule>, s: string)
    requires Safe(table, rules, s)
    ensures Run(table, rules, s).Err? <==> exists i :: 0 <= i < |rules| && rules[i].key !in table
    ensures Run(table, rules, s).Err? ==> Run(table, rules, s).error == InvalidTransformationMethod
    decreases |rules|
  {
    if rules != [] && rules[0].key in table {
      var op := table[rules[0].key];
      RunFailsIffUnknownKey(table, rules[1..], Apply(op, rules[0].index, s));
      if exists i :: 0 <= i < |rules| && rules[i].key !in table {
        var i :| 0 <= i < |rules| && rules[i].key !in table;
        assert rules[1..][i - 1].key !in table;
      }
    }
  }

  /**
   * Rules run in textual order: running `a + b` is running `a` and then
   * running `b` on its result.
   */
  lemma {:induction false} RunInOrder(table: map<string, Op>, a: seq<Rule>, b: seq<Rule>, s: string)
    requires Safe(table, a + b, s)
    ensures Safe(table, a, s)
    ensures Run(table, a, s).Ok? ==> Safe(table, b, Run(table, a, s).value)
    ensures Run(table, a + b, s) ==
      match Run(table, a, s)
      case Err(e) => Err(e)
      case Ok(t) => Run(table, b, t)
    decreases |a|
  {
    if a != [] {
      assert (a + b)[0] == a[0];
      if a[0].key in table {
        assert (a + b)[1..] == a[1..] + b;
        RunInOrder(table, a[1..], b, Apply(table[a[0].key], a[0].index, s));
      }
    } else {
      assert a + b == b;
    }
  }

  // ---------------------------------------------------------------------
  // The whole decoder
  // ---------------------------------------------------------------------

  /** What the script yields for decoding: the method table and the rules in order. */
  datatype Program = Program(table: map<string, Op>, rules: seq<Rule>)

  /**
   * Everything decodeSignature does before touching the signature. The
   * body is looked for only among the lines up to and including the line
   * that named the routine.
   */
  function Extract(lines: seq<string>): (r: Result<Program, DecodeError>)
  {
    if |lines| == 0 then Err(PlayerDataEmpty)
    else
      match FirstMatch(lines, FindName)
      case None => Err(FuncNameNotFound)
      case Some((name, k)) => ExtractBody(lines[..k + 1], name)
  }

  /** formats.go:111-125: the body search among the lines read. */
  function ExtractBody(lines: seq<string>, name: string): Result<Program, DecodeError>
  {
    match FirstMatch(lines, BodyMatcher(name))
    case None => Err(TransformationsNotRead)
    case Some((groups, _)) => ExtractProgram(groups.0, groups.1)
  }

  /** formats.go:128-163: the method table from the helper object and the rules from the body. */
  function ExtractProgram(transformations: string, rules: string): Result<Program, DecodeError>
  {
    var methods := FindMethods(transformations);
    if methods == [] then Err(TransformationsNotFound)
    else
      match BuildTable(methods)
      case Err(e) => Err(e)
      case Ok(table) =>
        var calls := FindRules(rules);
        if calls == [] then Err(RulesNotFound) else Ok(Program(table, calls))
  }

  /** decodeSignature reaches no runtime panic on these inputs. */
  predicate NoPanic(lines: seq<string>, signature: string)
  {
    Extract(lines).Ok? ==> Safe(Extract(lines).value.table, Extract(lines).value.rules, signature)
  }

  /** The result of decodeSignature. */
  function Decode(lines: seq<string>, signature: string): (r: Result<string, DecodeError>)
    requires NoPanic(lines, signature)
  {
    match Extract(lines)
    case Err(e) => Err(e)
    case Ok(p) => Run(p.table, p.rules, signature)
  }

  /**
   * formats.go:91-104: read lines until one matches the call-site pattern.
   * Returns the lines read so far (the last one holds the match) and the
   * captured name, or the empty name when no line matched.
   */
  method ScanForFuncName(playerData: seq<string>) returns (lines: seq<string>, decodeFuncName: string)
    ensures decodeFuncName == "" <==> FirstMatch(playerData, FindName).None?
    ensures decodeFuncName != "" ==>
      var k := FirstMatch(playerData, FindName).value.1;
      FirstMatch(playerData, FindName).value.0 == decodeFuncName && lines == playerData[..k + 1]
  {
    lines := [];
    decodeFuncName := "";
    var i := 0;
    while i < |playerData|
      invariant i <= |playerData|
      invariant lines == playerData[..i] && decodeFuncName == ""
      invariant forall j :: 0 <= j < i ==> FindName(playerData[j]).None?
    {
      var line := playerData[i];
      assert playerData[..i + 1] == playerData[..i] + [line];
      lines := lines + [line];
      var matches := FindName(line);
      if matches.Some? {
        decodeFuncName := matches.value;
        FirstMatchAt(playerData, FindName, i);
        return;
      }
      i := i + 1;
    }
    FirstMatchNone(playerData, FindName);
  }

  /**
   * formats.go:114-121: the captures of the body pattern on the first of
   * `lines` that matches, or two empty strings when none does.
   */
  method ScanForBody(lines: seq<string>, decodeFuncName: string) returns (transformations: string, rules: string)
    ensures transformations == "" || rules == "" <==> FirstMatch(lines, BodyMatcher(decodeFuncName)).None?
    ensures FirstMatch(lines, BodyMatcher(decodeFuncName)).Some? ==>
      FirstMatch(lines, BodyMatcher(decodeFuncName)).value.0 == (transformations, rules)
  {
    transformations, rules := "", "";
    var j := 0;
    while j < |lines|
      invariant j <= |lines|
      invariant transformations == "" && rules == ""
      invariant forall i :: 0 <= i < j ==> BodyMatcher(decodeFuncName)(lines[i]).None?
    {
      var matches := FindBody(lines[j], decodeFuncName);
      if matches.Some? {
        transformations, rules := matches.value.0, matches.value.1;
        FirstMatchAt(lines, BodyMatcher(decodeFuncName), j);
        return;
      }
      j := j + 1;
    }
    FirstMatchNone(lines, BodyMatcher(decodeFuncName));
  }

  /**
   * formats.go:141-148: try the markers in priority order and stop at the
   * first one the method body contains.
   */
  method MatchMarker(operation: string) returns (transformationFound: bool, op: Op)
    ensures transformationFound <==> Classify(operation).Some?
    ensures transformationFound ==> op == Classify(operation).value
  {
    transformationFound, op := false, Reverse;
    var ti := 0;
    while ti < |Markers|
      invariant ti <= |Markers|
      invariant Classify(operation) == ClassifyFrom(operation, ti)
    {
      if Contains(operation, Markers[ti].0) {
        transformationFound, op := true, Markers[ti].1;
        return;
      }
      ti := ti + 1;
    }
  }

  /**
   * formats.go:128-157: classify every helper method by the first marker
   * its body contains and record it under its key.
   */
  method ParseTransformations(transformations: string) returns (r: Result<map<string, Op>, DecodeError>)
    ensures FindMethods(transformations) == [] ==> r == Err(TransformationsNotFound)
    ensures FindMethods(transformations) != [] ==> r == BuildTable(FindMethods(transformations))
    ensures r.Ok? ==> |r.value| > 0
  {
    var matches := FindMethods(transformations);
    if |matches| == 0 {
      return Err(TransformationsNotFound);
    }
    var trans: map<string, Op> := map[];
    var mi := 0;
    while mi < |matches|
      invariant mi <= |matches|
      invariant BuildTable(matches[..mi]) == Ok(trans)
    {
      var method_, operation := matches[mi].key, matches[mi].body;
      var transformationFound, op := MatchMarker(operation);
      if transformationFound {
        assert matches[..mi + 1][..mi] == matches[..mi] && matches[..mi + 1][mi] == matches[mi];
        trans := trans[method_ := op];
      }
      if !transformationFound {
        BuildTableOk(matches);
        return Err(UnknownTransformation);
      }
      mi := mi + 1;
    }
    assert matches[..mi] == matches;
    // The empty-table test of formats.go:155 cannot fail once a method was found.
    BuildTableKeys(matches);
    return Ok(trans);
  }

  /**
   * formats.go:165-194: apply each rule in turn, stopping with an error at
   * the first key missing from the table.
   */
  method ApplyRules(trans: map<string, Op>, rules: seq<Rule>, signature: string) returns (r: Result<string, DecodeError>)
    requires Safe(trans, rules, signature)
    ensures r == Run(trans, rules, signature)
  {
    var sig := signature;
    var ri := 0;
    while ri < |rules|
      invariant ri <= |rules|
      invariant Safe(trans, rules[ri..], sig)
      invariant Run(trans, rules, signature) == Run(trans, rules[ri..], sig)
    {
      var rule := rules[ri];
      if rule.key !in trans {
        return Err(InvalidTransformationMethod);
      }
      assert rules[ri..][1..] == rules[ri + 1..];
      match trans[rule.key] {
        case Reverse =>
          sig := ReverseString(sig);
        case Slice =>
          sig := sig[rule.index..];
        case Swap =>
          sig := SwapRunes(sig, rule.index);
      }
      ri := ri + 1;
    }
    return Ok(sig);
  }

  /** formats.go:85-197: the stages in order, each failure ending the decode. */
  method DecodeSignature(playerData: seq<string>, signature: string) returns (r: Result<string, DecodeError>)
    requires NoPanic(playerData, signature)
    ensures r == Decode(playerData, signature)
  {
    if |playerData| == 0 {
      return Err(PlayerDataEmpty);
    }
    var lines, decodeFuncName := ScanForFuncName(playerData);
    if decodeFuncName == "" {
      return Err(FuncNameNotFound);
    }
    var transformations, rules := ScanForBody(lines, decodeFuncName);
    if transformations == "" || rules == "" {
      return Err(TransformationsNotRead);
    }
    var trans := ParseTransformations(transformations);
    if trans.Err? {
      return Err(trans.error);
    }
    var matches := FindRules(rules);
    if |matches| == 0 {
      return Err(RulesNotFound);
    }
    assert ExtractProgram(transformations, rules) == Ok(Program(trans.value, matches));
    assert Extract(playerData) == Ok(Program(trans.value, matches));
    r := ApplyRules(trans.value, matches, signature);
  }
}
