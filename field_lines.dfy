/**
 * `clean_struct` of make_pyx.py: one field declaration line such as
 * `int a, b = 3;` becomes the type and the variable names it declares.
 */
module FieldLines {
  import opened Text
  import opened Outcomes

  /** One field declaration line: its type and the names it declares. */
  datatype FieldGroup = FieldGroup(typeName: string, variables: seq<string>)

  /** A token loses one trailing `;` or `,`, and nothing else. */
  function DropTerminator(p: string): (r: string)
    ensures r == p || (|p| > 0 && p[|p| - 1] in ";," && r == p[..|p| - 1])
    ensures |p| > 0 && p[|p| - 1] in ";," ==> |r| == |p| - 1
  {
    if p != [] && p[|p| - 1] in ";," then p[..|p| - 1] else p
  }

  /** The names kept from `parts` by the loop of clean_struct, when the token
      seen just before `parts` was an `=` exactly if `wasEqual`. */
  function KeptAfter(parts: seq<string>, wasEqual: bool): seq<string>
    decreases |parts|
  {
    if parts == [] then []
    else
      var p := DropTerminator(parts[0]);
      (if wasEqual || p == "=" then [] else [p]) + KeptAfter(parts[1..], p == "=")
  }

  lemma KeptAfterStep(parts: seq<string>, i: nat, wasEqual: bool)
    requires i < |parts|
    ensures var p := DropTerminator(parts[i]);
      KeptAfter(parts[i..], wasEqual) == (if wasEqual || p == "=" then [] else [p]) + KeptAfter(parts[i + 1..], p == "=")
  {
    assert parts[i..][1..] == parts[i + 1..];
  }

  /** Reference rule, token by token: token `i` is a name unless it is an
      `=` or the token before it is one. */
  predicate Kept(parts: seq<string>, i: nat)
    requires i < |parts|
  {
    DropTerminator(parts[i]) != "=" && (i == 0 || DropTerminator(parts[i - 1]) != "=")
  }

  /** The tokens from index `i` on that the reference rule keeps, in order. */
  function KeptFrom(parts: seq<string>, i: nat): seq<string>
    requires i <= |parts|
    decreases |parts| - i
  {
    if i == |parts| then []
    else (if Kept(parts, i) then [DropTerminator(parts[i])] else []) + KeptFrom(parts, i + 1)
  }

  /** The one-step `was_equal` flag implements the reference rule: the flag
      carried into token `i` is exactly "token `i - 1` was an `=`". */
  lemma {:induction false} FlagMatchesRule(parts: seq<string>, i: nat)
    requires i <= |parts|
    ensures KeptAfter(parts[i..], i > 0 && DropTerminator(parts[i - 1]) == "=") == KeptFrom(parts, i)
    decreases |parts| - i
  {
    if i < |parts| {
      FlagMatchesRule(parts, i + 1);
      assert parts[i..][1..] == parts[i + 1..];
    }
  }

  /** clean_struct drops an `=` and exactly the one token after it and keeps
      every other token, in order. */
  lemma VariablesFollowRule(parts: seq<string>)
    ensures KeptAfter(parts, false) == KeptFrom(parts, 0)
  {
    FlagMatchesRule(parts, 0);
    assert parts[0..] == parts;
  }

  /** No `=` ever survives as a name, and there are never more names than tokens. */
  lemma {:induction false} NoEqualsKept(parts: seq<string>, wasEqual: bool)
    ensures "=" !in KeptAfter(parts, wasEqual)
    ensures |KeptAfter(parts, wasEqual)| <= |parts|
    decreases |parts|
  {
    if parts != [] {
      NoEqualsKept(parts[1..], DropTerminator(parts[0]) == "=");
    }
  }

  /** A line without any `=` keeps every token, each losing at most one
      trailing `;` or `,`. */
  lemma {:induction false} NoDefaultsKeepsAll(parts: seq<string>)
    requires forall i :: 0 <= i < |parts| ==> DropTerminator(parts[i]) != "="
    ensures |KeptAfter(parts, false)| == |parts|
    ensures forall i :: 0 <= i < |parts| ==> KeptAfter(parts, false)[i] == DropTerminator(parts[i])
    decreases |parts|
  {
    if parts != [] {
      NoDefaultsKeepsAll(parts[1..]);
    }
  }

  /** What clean_struct returns for a line, or the error it raises. */
  function Cleaned(line: string): (r: Result<FieldGroup>)
    ensures r.Success? <==> |Split(line)| >= 2 && KeptFrom(Split(line)[1..], 0) != []
    ensures r.Success? ==> r.value.typeName == Split(line)[0]
    ensures r.Success? ==> r.value.typeName != [] && NoSpace(r.value.typeName)
    ensures r.Success? ==> r.value.variables != [] && "=" !in r.value.variables
    ensures r.Success? ==> r.value.variables == KeptFrom(Split(line)[1..], 0)
  {
    var tokens := Split(line);
    if tokens == [] then Failure(NothingToUnpack(line))
    else
      var variables := KeptAfter(tokens[1..], false);
      NoEqualsKept(tokens[1..], false);
      VariablesFollowRule(tokens[1..]);
      if |tokens| == 1 || variables == [] then Failure(MalformedField(line))
      else Success(FieldGroup(tokens[0], variables))
  }

  /** The loop of clean_struct, with its `was_equal` flag and `variables.append`. */
  method CleanStruct(line: string) returns (r: Result<FieldGroup>)
    ensures r == Cleaned(line)
  {
    var tokens := Split(line);
    if tokens == [] {
      return Failure(NothingToUnpack(line));
    }
    var typeName, parts := tokens[0], tokens[1..];
    var wasEqual := false;
    var variables: seq<string> := [];
    var i := 0;
    assert parts[0..] == parts;
    assert forall j :: 0 <= j < |parts| ==> parts[j] == tokens[j + 1] && parts[j] != [];
    while i < |parts|
      invariant 0 <= i <= |parts|
      invariant forall j :: 0 <= j < |parts| ==> parts[j] != []
      invariant variables + KeptAfter(parts[i..], wasEqual) == KeptAfter(parts, false)
    {
      var p := parts[i];
      if p[|p| - 1] in ";," {
        p := p[..|p| - 1];
      }
      CleanStep(parts, i, wasEqual, variables, p);
      if !(wasEqual || p == "=") {
        variables := variables + [p];
      }
      wasEqual := p == "=";
      i := i + 1;
    }
    assert variables == KeptAfter(parts, false) by {
      assert parts[i..] == [];
    }
    if parts == [] || variables == [] {
      return Failure(MalformedField(line));
    }
    r := Success(FieldGroup(typeName, variables));
  }

  lemma CleanStep(parts: seq<string>, i: nat, wasEqual: bool, variables: seq<string>, p: string)
    requires i < |parts| && p == DropTerminator(parts[i])
    requires variables + KeptAfter(parts[i..], wasEqual) == KeptAfter(parts, false)
    ensures (if wasEqual || p == "=" then variables else variables + [p]) + KeptAfter(parts[i + 1..], p == "=") ==
      KeptAfter(parts, false)
  {
    KeptAfterStep(parts, i, wasEqual);
    if !(wasEqual || p == "=") {
      assert (variables + [p]) + KeptAfter(parts[i + 1..], false) == variables + KeptAfter(parts[i..], wasEqual);
    }
  }

  /** `int x = 1, y;` declares x and y: the `=` and the single token `1,`
      after it are skipped. */
  lemma DefaultValueSkipped(line: string)
    requires line == "int x = 1, y;"
    ensures Cleaned(line) == Success(FieldGroup("int", ["x", "y"]))
  {
    var tokens := ["int", "x", "=", "1,", "y;"];
    DefaultValueLine(tokens, line);
    DefaultValueTokens(tokens[1..]);
  }

  lemma DefaultValueLine(tokens: seq<string>, line: string)
    requires tokens == ["int", "x", "=", "1,", "y;"]
    requires line == "int x = 1, y;"
    ensures Split(line) == tokens
  {
    assert Join(tokens[4..], " ") == "y;";
    assert Join(tokens[3..], " ") == "1, y;";
    assert Join(tokens[2..], " ") == "= 1, y;";
    assert Join(tokens[1..], " ") == "x = 1, y;";
    assert Join(tokens, " ") == line;
    SplitJoin(tokens);
  }

  lemma DefaultValueTokens(parts: seq<string>)
    requires parts == ["x", "=", "1,", "y;"]
    ensures KeptAfter(parts, false) == ["x", "y"]
  {
    assert KeptAfter(parts[2..], true) == ["y"] by {
      LastKept(parts[3..], "y;", "y");
      KeptAfterStep(parts[2..], 0, true);
      assert parts[2..][1..] == parts[3..];
    }
    assert DropTerminator(parts[1]) == "=";
    KeptAfterStep(parts, 1, false);
    KeptAfterStep(parts, 0, false);
    assert parts[0..] == parts;
  }

  lemma LastKept(parts: seq<string>, q: string, p: string)
    requires parts == [q] && q == p + ";" && p != [] && p[|p| - 1] !in ";," && p != "="
    ensures KeptAfter(parts, true) == [] && KeptAfter(parts, false) == [p]
  {
    assert DropTerminator(q) == p;
    assert parts[1..] == [];
  }
}
