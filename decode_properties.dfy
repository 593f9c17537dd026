/**
 * What decodeSignature promises, stated over `Extract`, `Decode` and `Run`,
 * and one example script decoded from end to end.
 */
module DecodeProperties {
  import opened Wrappers
  import opened Text
  import opened Utils
  import opened Transform
  import opened Patterns
  import opened Decoder

  /** Empty player data fails before any scanning (formats.go:86-88). */
  lemma EmptyPlayerDataFails(signature: string)
    ensures NoPanic([], signature) && Decode([], signature) == Err(PlayerDataEmpty)
  {
  }

  /** A script whose lines never match the call-site pattern fails with FuncNameNotFound (formats.go:106-108). */
  lemma MissingNameFails(lines: seq<string>, signature: string)
    requires |lines| > 0
    requires forall j, p: nat, name :: 0 <= j < |lines| ==> !NameMatchAt(lines[j], p, name)
    ensures NoPanic(lines, signature) && Decode(lines, signature) == Err(FuncNameNotFound)
  {
    forall j | 0 <= j < |lines| ensures FindName(lines[j]).None? {
      FindNameLeftmost(lines[j]);
    }
  }

  /** Once the name is found on line `k`, extraction is the body search among lines 0 to `k`. */
  lemma ExtractAfterName(lines: seq<string>, name: string, k: nat)
    requires FirstMatch(lines, FindName) == Some((name, k))
    ensures Extract(lines) == ExtractBody(lines[..k + 1], name)
  {
  }

  /**
   * Lines after the one that names the routine are never consulted: the
   * name search stops there and the body search only sees the lines read
   * (formats.go:97-102, 115).
   */
  lemma LinesAfterNameIgnored(lines: seq<string>)
    requires FirstMatch(lines, FindName).Some?
    ensures Extract(lines) == Extract(lines[..FirstMatch(lines, FindName).value.1 + 1])
  {
    var (name, k) := FirstMatch(lines, FindName).value;
    var read := lines[..k + 1];
    FirstMatchPrefix(lines, FindName, k + 1);
    assert read[..k + 1] == read;
    ExtractAfterName(lines, name, k);
    ExtractAfterName(read, name, k);
  }

  /**
   * A helper method whose body carries none of the three markers fails the
   * whole decode with UnknownTransformation (formats.go:150-152), whatever
   * the other methods and the rules are.
   */
  lemma UnknownMethodFails(lines: seq<string>, signature: string, i: nat)
    requires FirstMatch(lines, FindName).Some?
    requires
      var (name, k) := FirstMatch(lines, FindName).value;
      var body := FirstMatch(lines[..k + 1], BodyMatcher(name));
      && body.Some?
      && i < |FindMethods(body.value.0.0)|
      && Classify(FindMethods(body.value.0.0)[i].body).None?
    ensures NoPanic(lines, signature) && Decode(lines, signature) == Err(UnknownTransformation)
  {
    var (name, k) := FirstMatch(lines, FindName).value;
    var groups := FirstMatch(lines[..k + 1], BodyMatcher(name)).value.0;
    BuildTableOk(FindMethods(groups.0));
    assert ExtractProgram(groups.0, groups.1) == Err(UnknownTransformation);
  }

  /**
   * The decode succeeds exactly when extraction succeeds and every rule
   * names a key of the table; a failure carries no signature, partly
   * transformed or otherwise (formats.go:175-178, 196).
   */
  lemma DecodeSucceedsIff(lines: seq<string>, signature: string)
    requires NoPanic(lines, signature)
    ensures Decode(lines, signature).Ok? <==>
      && Extract(lines).Ok?
      && forall j :: 0 <= j < |Extract(lines).value.rules| ==>
           Extract(lines).value.rules[j].key in Extract(lines).value.table
  {
    if Extract(lines).Ok? {
      var p := Extract(lines).value;
      RunFailsIffUnknownKey(p.table, p.rules, signature);
    }
  }

  /** A successful extraction always has a non-empty method table and at least one rule. */
  lemma ExtractedProgramNonEmpty(lines: seq<string>)
    requires Extract(lines).Ok?
    ensures |Extract(lines).value.table| > 0 && |Extract(lines).value.rules| > 0
  {
    var (name, k) := FirstMatch(lines, FindName).value;
    var groups := FirstMatch(lines[..k + 1], BodyMatcher(name)).value.0;
    BuildTableKeys(FindMethods(groups.0));
  }

  // ---------------------------------------------------------------------
  // An example script, decoded from end to end. It holds one line:
  //   c.sig||XZ(c.s);var XY={aa:function(a){a.reverse()},
  //     bb:function(a,b){a.splice(0,b)},
  //     cc:function(a,b){var c=a[0];a[0]=a[b%a.length];a[b]=c}};
  //     function XZ(a){a=a.split("");XY.bb(a,2);XY.aa(a);XY.cc(a,1);return a.join("")}
  // Read as JavaScript, the routine slices 2, reverses and swaps 1, which
  // turns "ABCDE" into "DEC". The decoder reads two rules only and gives "EDC".
  // ---------------------------------------------------------------------

  /** The three helper bodies. */
  const ReverseBody := "a.reverse()"
  const SpliceBody := "a.splice(0,b)"
  const SwapBody := "var c=a[0];" + "a[0]=a[b%a.length];" + "a[b]=c"

  /** The helper object's definitions and the text inside its braces. */
  const ScenarioDefs: seq<(Method, string)> :=
    [(Method("aa", ReverseBody), "a"), (Method("bb", SpliceBody), "a,b"), (Method("cc", SwapBody), "a,b")]
  const ScenarioObject := ObjectText(ScenarioDefs)

  /** The routine's calls into the helper object, and its whole body. */
  const SliceCall := "XY.bb(a,2);"
  const ReverseCall := "XY.aa(a);"
  const SwapCall := "XY.cc(a,1)"
  const ScenarioCalls := SliceCall + ReverseCall + SwapCall
  const SplitStep := "a=a.split(\"\");"
  const JoinStep := ";return a.join(\"\")"
  const ScenarioBody := SplitStep + ScenarioCalls + JoinStep

  /** The call site that names the routine, then the declarations. */
  const CallSite := "c.sig||XZ(c.s);"
  const ScenarioLine := CallSite + BodyText("XY", ScenarioObject, "XZ", "a", ScenarioBody)

  /** The table the helper object yields. */
  const ScenarioTable: map<string, Op> := map["aa" := Reverse, "bb" := Slice, "cc" := Swap]

  /** The reverse body carries `.reverse(`. */
  lemma ScenarioReverseBody()
    ensures Classify(ReverseBody) == Some(Reverse)
  {
    assert HasAt(ReverseBody, 1, ".reverse(");
  }

  /** The splice body carries `.splice(` and no `.reverse(`. */
  lemma ScenarioSpliceBody()
    ensures Classify(SpliceBody) == Some(Slice)
  {
    var spl := SpliceBody;
    assert spl[1] == '.' && spl[2] == 's' && spl[3] == 'p' && spl[4] == 'l';
    assert spl[5] == 'i' && spl[6] == 'c' && spl[7] == 'e' && spl[8] == '(';
    assert HasAt(spl, 1, ".splice(");
    forall j: nat | j + 9 <= |spl| ensures !HasAt(spl, j, ".reverse(") {
      MismatchAt(spl, j, ".reverse(", if j == 1 then 1 else 0);
    }
  }

  /** The swap body carries `var c=` and neither of the other two markers. */
  lemma ScenarioSwapBody()
    ensures Classify(SwapBody) == Some(Swap)
  {
    var swp := SwapBody;
    assert HasAt(swp, 0, "var c=");
    forall j: nat | j + 9 <= |swp| ensures !HasAt(swp, j, ".reverse(") {
      MismatchAt(swp, j, ".reverse(", if j == 21 then 1 else 0);
    }
    forall j: nat | j + 8 <= |swp| ensures !HasAt(swp, j, ".splice(") {
      MismatchAt(swp, j, ".splice(", if j == 21 then 1 else 0);
    }
  }

  /** No helper body holds a `}` or a line break. */
  lemma ScenarioBodiesPlain()
    ensures '}' !in ReverseBody && '\n' !in ReverseBody
    ensures '}' !in SpliceBody && '\n' !in SpliceBody
    ensures '}' !in SwapBody && '\n' !in SwapBody
  {
    forall i | 0 <= i < |SwapBody| ensures SwapBody[i] != '}' && SwapBody[i] != '\n' {
    }
  }

  /** Every definition of the helper object is one the method pattern reads back. */
  lemma ScenarioDefsReadable()
    ensures forall i :: 0 <= i < |ScenarioDefs| ==> Readable(ScenarioDefs[i].0, ScenarioDefs[i].1)
  {
    ScenarioBodiesPlain();
    assert Readable(Method("aa", ReverseBody), "a");
    assert Readable(Method("bb", SpliceBody), "a,b");
    assert Readable(Method("cc", SwapBody), "a,b");
  }

  /** The method pattern reads the helper object's three methods, in order. */
  lemma ScenarioMethods()
    ensures FindMethods(ScenarioObject) ==
      [Method("aa", ReverseBody), Method("bb", SpliceBody), Method("cc", SwapBody)]
  {
    ScenarioDefsReadable();
    ObjectTextRoundTrip(ScenarioDefs);
  }

  /** Three classified methods build the table of their keys, in order. */
  lemma BuildTableOfThree(m0: Method, m1: Method, m2: Method, o0: Op, o1: Op, o2: Op)
    requires Classify(m0.body) == Some(o0) && Classify(m1.body) == Some(o1) && Classify(m2.body) == Some(o2)
    ensures BuildTable([m0, m1, m2]) == Ok(map[m0.key := o0][m1.key := o1][m2.key := o2])
  {
    assert [m0][..0] == [];
    assert BuildTable([m0]) == Ok(map[m0.key := o0]);
    assert [m0, m1][..1] == [m0];
    assert BuildTable([m0, m1]) == Ok(map[m0.key := o0][m1.key := o1]);
    assert [m0, m1, m2][..2] == [m0, m1];
  }

  /** The table built from those methods is ScenarioTable. */
  lemma ScenarioTableBuilt()
    ensures BuildTable(FindMethods(ScenarioObject)) == Ok(ScenarioTable)
  {
    ScenarioMethods();
    ScenarioReverseBody();
    ScenarioSpliceBody();
    ScenarioSwapBody();
    BuildTableOfThree(Method("aa", ReverseBody), Method("bb", SpliceBody), Method("cc", SwapBody), Reverse, Slice, Swap);
  }

  /** No rule call can start at `r`: the pattern's `.` and `(` are not where it needs them. */
  predicate NoCallAt(t: string, r: nat)
  {
    r + 5 < |t| ==> t[r + 2] != '.' || t[r + 5] != '('
  }

  /** Where no call can start, the rule pattern finds nothing. */
  lemma NoRuleAt(t: string, r: nat)
    requires NoCallAt(t, r)
    ensures RuleStarts(t)(r).None?
  {
    assert RuleStarts(t)(r) == RuleAt(t, r);
  }

  /** FindRules passes over a stretch where no call can start. */
  lemma RulesSkip(t: string, p: nat, q: nat)
    requires p <= q <= |t| && forall r :: p <= r < q ==> NoCallAt(t, r)
    ensures AllMatches(|t|, p, RuleStarts(t)) == AllMatches(|t|, q, RuleStarts(t))
  {
    forall r | p <= r < q ensures RuleStarts(t)(r).None? {
      NoRuleAt(t, r);
    }
    AllMatchesSkip(|t|, p, q, RuleStarts(t));
  }

  /** FindRules reads the rule matched at `p` and resumes at its end. */
  lemma RulesNext(t: string, p: nat, c: nat, rule: Rule, end: nat)
    requires RuleMatch(t, p, c, rule, end)
    ensures AllMatches(|t|, p, RuleStarts(t)) == [rule] + AllMatches(|t|, end, RuleStarts(t))
  {
    RuleAtIff(t, p, rule, end);
    assert RuleStarts(t)(p) == RuleAt(t, p);
  }

  /** `XY.bb(a,2)` at 14 is the rule `bb 2`. */
  lemma ScenarioFirstRule()
    ensures RuleMatch(ScenarioBody, 14, 21, Rule("bb", 2), 24)
  {
    var t := ScenarioBody;
    assert t[14] == 'X' && t[15] == 'Y' && t[16] == '.' && t[17] == 'b' && t[18] == 'b' && t[19] == '(';
    assert t[20] == 'a' && t[21] == ',' && t[22] == '2' && t[23] == ')';
    assert t[17..19] == "bb";
    assert t[22..23] == "2";
  }

  /**
   * The one-argument call `XY.aa(a)` at 25 has no comma of its own, so
   * `[^,]+` runs on to the comma of `XY.cc(a,1)`: the match is the rule
   * `aa 1` and ends after the swap call.
   */
  lemma ScenarioSecondRule()
    ensures RuleMatch(ScenarioBody, 25, 41, Rule("aa", 1), 44)
  {
    var t := ScenarioBody;
    assert t[25] == 'X' && t[26] == 'Y' && t[27] == '.' && t[28] == 'a' && t[29] == 'a' && t[30] == '(';
    assert t[31..41] == "a);XY.cc(a";
    assert t[41] == ',' && t[42] == '1' && t[43] == ')';
    assert t[28..30] == "aa";
    assert t[42..43] == "1";
  }

  /** Before the first call, only `a.split(` has a `.`, and no `(` three places on. */
  lemma ScenarioNoCallBefore()
    ensures forall r :: 0 <= r < 14 ==> NoCallAt(ScenarioBody, r)
  {
    var t := ScenarioBody;
    forall r | 0 <= r < 14 ensures NoCallAt(t, r) {
      if r == 1 { assert t[6] == 'l'; } else { assert t[r + 2] != '.'; }
    }
  }

  /** After the last match, only `a.join(` has a `.`, and no `(` three places on. */
  lemma ScenarioNoCallAfter()
    ensures forall r :: 44 <= r < |ScenarioBody| ==> NoCallAt(ScenarioBody, r)
  {
    var t := ScenarioBody;
    forall r | 44 <= r < |t| ensures NoCallAt(t, r) {
      if r == 51 { assert t[56] == 'i'; } else if r + 5 < |t| { assert t[r + 2] != '.'; }
    }
  }

  /** The rule pattern reads nothing after the second match. */
  lemma ScenarioRulesTail()
    ensures AllMatches(|ScenarioBody|, 44, RuleStarts(ScenarioBody)) == []
  {
    ScenarioNoCallAfter();
    RulesSkip(ScenarioBody, 44, |ScenarioBody|);
  }

  /** From the `;` after the first call the rule pattern reads `aa 1` only. */
  lemma ScenarioRulesSecond()
    ensures AllMatches(|ScenarioBody|, 24, RuleStarts(ScenarioBody)) == [Rule("aa", 1)]
  {
    var t := ScenarioBody;
    assert NoCallAt(t, 24) by { assert t[26] == 'Y'; }
    RulesSkip(t, 24, 25);
    ScenarioSecondRule();
    RulesNext(t, 25, 41, Rule("aa", 1), 44);
    ScenarioRulesTail();
  }

  /** From the first call on the rule pattern reads `bb 2` and `aa 1`. */
  lemma ScenarioRulesFirst()
    ensures AllMatches(|ScenarioBody|, 14, RuleStarts(ScenarioBody)) == [Rule("bb", 2), Rule("aa", 1)]
  {
    ScenarioFirstRule();
    RulesNext(ScenarioBody, 14, 21, Rule("bb", 2), 24);
    ScenarioRulesSecond();
  }

  /** The rule pattern reads two rules from the routine's body, `bb 2` and `aa 1`. */
  lemma ScenarioRules()
    ensures FindRules(ScenarioBody) == [Rule("bb", 2), Rule("aa", 1)]
  {
    ScenarioNoCallBefore();
    RulesSkip(ScenarioBody, 0, 14);
    ScenarioRulesFirst();
  }

  /** The line's call site names the routine `XZ`. */
  lemma ScenarioName()
    ensures FindName(ScenarioLine) == Some("XZ")
  {
    var line := ScenarioLine;
    assert NameMatchAt(line, 1, "XZ") by {
      assert line[1..10] == ".sig||XZ(";
    }
    forall q: nat, name | q < 1 ensures !NameMatchAt(line, q, name) {
      MismatchAt(line, 0, ".sig||" + name + "(", 0);
    }
    FindNameLeftmost(line);
    var p: nat :| NameMatchAt(line, p, FindName(line).value) &&
      forall q: nat, name :: q < p ==> !NameMatchAt(line, q, name);
    assert p == 1;
    NameAtIff(line, 1, "XZ");
    NameAtIff(line, 1, FindName(line).value);
  }

  /**
   * A line whose declarations follow a prefix without `v` is read by the
   * body pattern from the declarations.
   */
  lemma BodyAfterPrefix(pre: string, helper: string, obj: string, name: string, params: string, body: string)
    requires |helper| == 2 && AllDot(helper) && !IsSpace(helper[0]) && ReadableObject(obj)
    requires ReadableBody(params, body) && name != [] && !IsSpace(name[0])
    requires 'v' !in pre
    ensures FindBody(pre + BodyText(helper, obj, name, params, body), name) == Some((obj, body))
  {
    var decl := BodyText(helper, obj, name, params, body);
    var line := pre + decl;
    var p := |pre|;
    assert HasAt(line, p, decl) by {
      assert line[p..p + |decl|] == decl;
    }
    BodyAtText(line, p, helper, obj, name, params, body);
    forall q: nat | q < p ensures BodyAt(line, q, name).None? {
      assert line[q] == pre[q];
      MismatchAt(line, q, "var", 0);
    }
    FindBodyAt(line, name, p);
  }

  /** The routine's body carries no `}` and no line break. */
  lemma ScenarioBodyReadable()
    ensures ReadableBody("a", ScenarioBody)
  {
    var t := ScenarioBody;
    forall i | 0 <= i < |t| ensures t[i] != '}' && t[i] != '\n' {
    }
  }

  /** The body pattern built for `XZ` reads the helper object's inside and the routine's body. */
  lemma ScenarioBodyFound()
    ensures FindBody(ScenarioLine, "XZ") == Some((ScenarioObject, ScenarioBody))
  {
    ScenarioDefsReadable();
    ObjectTextPlain(ScenarioDefs);
    ScenarioBodyReadable();
    assert 'v' !in CallSite;
    BodyAfterPrefix(CallSite, "XY", ScenarioObject, "XZ", "a", ScenarioBody);
  }

  /** The program the helper object and the routine's body yield. */
  lemma ScenarioProgram()
    ensures ExtractProgram(ScenarioObject, ScenarioBody) == Ok(Program(ScenarioTable, [Rule("bb", 2), Rule("aa", 1)]))
  {
    ScenarioMethods();
    ScenarioTableBuilt();
    ScenarioRules();
  }

  /** A one-line script is read as its name match, then its body match, then the program. */
  lemma ExtractOneLine(line: string, name: string, obj: string, body: string, prog: Program)
    requires FindName(line) == Some(name) && FindBody(line, name) == Some((obj, body))
    requires ExtractProgram(obj, body) == Ok(prog)
    ensures Extract([line]) == Ok(prog)
  {
    var lines := [line];
    FirstMatchAt(lines, FindName, 0);
    assert lines[..1] == lines;
    assert BodyMatcher(name)(line) == FindBody(line, name);
    FirstMatchAt(lines, BodyMatcher(name), 0);
  }

  /** What the decoder reads from the script: the table and two rules. */
  lemma ScenarioExtract()
    ensures Extract([ScenarioLine]) == Ok(Program(ScenarioTable, [Rule("bb", 2), Rule("aa", 1)]))
  {
    ScenarioName();
    ScenarioBodyFound();
    ScenarioProgram();
    ExtractOneLine(ScenarioLine, "XZ", ScenarioObject, ScenarioBody, Program(ScenarioTable, [Rule("bb", 2), Rule("aa", 1)]));
  }

  /** Decoding runs the extracted rules on the signature. */
  lemma DecodeExtracted(lines: seq<string>, signature: string, prog: Program)
    requires Extract(lines) == Ok(prog) && Safe(prog.table, prog.rules, signature)
    ensures NoPanic(lines, signature) && Decode(lines, signature) == Run(prog.table, prog.rules, signature)
  {
  }

  /**
   * Slice(2) then Reverse turns "ABCDE" into "EDC"; following them with
   * Swap(1), as the routine itself does, would give "DEC".
   */
  lemma ScenarioRun()
    ensures Safe(ScenarioTable, [Rule("bb", 2), Rule("aa", 1)], "ABCDE")
    ensures Run(ScenarioTable, [Rule("bb", 2), Rule("aa", 1)], "ABCDE") == Ok("EDC")
    ensures Safe(ScenarioTable, [Rule("bb", 2), Rule("aa", 1), Rule("cc", 1)], "ABCDE")
    ensures Run(ScenarioTable, [Rule("bb", 2), Rule("aa", 1), Rule("cc", 1)], "ABCDE") == Ok("DEC")
  {
    assert "ABCDE"[2..] == "CDE";
    assert Reversed("CDE") == "EDC";
    assert Swapped("EDC", 1) == "DEC";
  }

  /** The script decodes "ABCDE" to "EDC": the routine's third call is never read. */
  lemma ScenarioDecode()
    ensures NoPanic([ScenarioLine], "ABCDE") && Decode([ScenarioLine], "ABCDE") == Ok("EDC")
  {
    ScenarioExtract();
    ScenarioRun();
    DecodeExtracted([ScenarioLine], "ABCDE", Program(ScenarioTable, [Rule("bb", 2), Rule("aa", 1)]));
  }

  /**
   * A signature shorter than the slice index reaches the out-of-range
   * slice of formats.go:185: the script cannot decode "A".
   */
  lemma ScenarioShortSignaturePanics()
    ensures !NoPanic([ScenarioLine], "A")
  {
    ScenarioExtract();
  }

  /** Reverse then Slice(0) turns the empty signature into the empty signature. */
  lemma EmptySignature()
    ensures Safe(ScenarioTable, [Rule("aa", 0), Rule("bb", 0)], "")
    ensures Run(ScenarioTable, [Rule("aa", 0), Rule("bb", 0)], "") == Ok("")
  {
    assert Reversed("") == "";
  }

  /**
   * Order matters: the same two rules in the other order give a different
   * signature, so the loop's textual order is observable.
   */
  lemma RuleOrderMatters()
    ensures Run(ScenarioTable, [Rule("bb", 1), Rule("aa", 0)], "AB") == Ok("B")
    ensures Run(ScenarioTable, [Rule("aa", 0), Rule("bb", 1)], "AB") == Ok("A")
  {
    assert Reversed("B") == "B";
    assert Reversed("AB") == "BA";
  }
}
