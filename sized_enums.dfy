/**
 * `make_enums` of make_enums.py: the later variant of make_pyx.py's
 * `make_enums` that also drops the `size` sentinel (the count of values
 * some headers add as a last enumerator). The declaration template is not
 * defined in make_enums.py, so it is a parameter here.
 */
module SizedEnums {
  import opened Text
  import opened HeaderScanner
  import opened EnumSynth

  /** The sentinel `parts.remove('size')` takes out. */
  const SizeSentinel := "size"

  /** Index of the first `x` in `vs`, or `|vs|`. */
  function FirstIndex(vs: seq<string>, x: string): (k: nat)
    ensures k <= |vs| && x !in vs[..k]
    ensures k < |vs| ==> vs[k] == x
  {
    if vs == [] || vs[0] == x then 0
    else
      var k := 1 + FirstIndex(vs[1..], x);
      assert vs[..k] == [vs[0]] + vs[1..][..k - 1];
      k
  }

  /** Python's `list.remove(x)`, with the `ValueError` of a missing `x`
      caught: the first `x` goes, everything else stays in order. */
  function RemoveFirst(vs: seq<string>, x: string): seq<string> {
    if vs == [] then []
    else if vs[0] == x then vs[1..]
    else [vs[0]] + RemoveFirst(vs[1..], x)
  }

  /** Exactly one `x` goes when there is one, and nothing else. */
  lemma {:induction false} RemoveFirstCounts(vs: seq<string>, x: string)
    ensures multiset(RemoveFirst(vs, x)) == multiset(vs) - multiset{x}
    ensures |RemoveFirst(vs, x)| == if x in vs then |vs| - 1 else |vs|
    decreases |vs|
  {
    if vs != [] {
      assert vs == [vs[0]] + vs[1..];
      assert multiset(vs) == multiset{vs[0]} + multiset(vs[1..]);
      if vs[0] != x {
        RemoveFirstCounts(vs[1..], x);
        var rest := RemoveFirst(vs[1..], x);
        assert RemoveFirst(vs, x) == [vs[0]] + rest;
        assert multiset([vs[0]] + rest) == multiset{vs[0]} + multiset(rest);
        assert x in vs <==> x in vs[1..];
      }
    }
  }

  /** `remove` cuts the list exactly at the first occurrence, and changes
      nothing when there is none. */
  lemma {:induction false} RemoveFirstAt(vs: seq<string>, x: string)
    ensures var k := FirstIndex(vs, x);
      RemoveFirst(vs, x) == if k == |vs| then vs else vs[..k] + vs[k + 1..]
    decreases |vs|
  {
    if vs != [] && vs[0] != x {
      RemoveFirstAt(vs[1..], x);
      var k := FirstIndex(vs[1..], x);
      if k < |vs[1..]| {
        assert vs[..k + 1] == [vs[0]] + vs[1..][..k];
        assert vs[k + 2..] == vs[1..][k + 1..];
      }
    }
  }

  lemma RemoveAbsent(vs: seq<string>, x: string)
    requires x !in vs
    ensures RemoveFirst(vs, x) == vs
  {
    RemoveFirstAt(vs, x);
    assert vs[..|vs|] == vs;
  }

  /** One capture as make_enums.py reads it: as in make_pyx.py, then
      without its first `size` value. */
  function SizedEnumDefOf(c: EnumCapture): EnumDef {
    EnumDef(Strip(c.name), RemoveFirst(ValuesOf(c.body), SizeSentinel))
  }

  /** The `enums` list of make_enums.py, in capture order. */
  function SizedEnumDefs(captures: seq<EnumCapture>): (r: seq<EnumDef>)
    ensures |r| == |captures|
    ensures forall i :: 0 <= i < |captures| ==> r[i] == SizedEnumDefOf(captures[i])
  {
    seq(|captures|, i requires 0 <= i < |captures| => SizedEnumDefOf(captures[i]))
  }

  lemma SizedEnumDefsStep(captures: seq<EnumCapture>, i: nat)
    requires i < |captures|
    ensures SizedEnumDefs(captures[..i + 1]) == SizedEnumDefs(captures[..i]) + [SizedEnumDefOf(captures[i])]
  {
    assert captures[..i + 1][..i] == captures[..i];
  }

  /** The loop of make_enums.py, with `parts.remove('size')` on the value
      list of each capture. */
  method MakeEnumsSized(captures: seq<EnumCapture>, template: HeaderTemplate,
                        headerFile: string, namespace: string, classname: string)
    returns (enums: seq<EnumDef>, decl: string)
    ensures enums == SizedEnumDefs(captures)
    ensures decl == Declarations(Blocks(template, headerFile, namespace, classname, enums))
  {
    enums := [];
    var declarations: seq<string> := [];
    var i := 0;
    while i < |captures|
      invariant 0 <= i <= |captures|
      invariant enums == SizedEnumDefs(captures[..i])
      invariant declarations == Blocks(template, headerFile, namespace, classname, enums)
    {
      var enumName, parts := Strip(captures[i].name), Strip(captures[i].body);
      var values := DropCommas(Split(parts));
      values := RemoveFirst(values, SizeSentinel);
      var main := template(headerFile, namespace, classname, enumName);
      SizedEnumDefsStep(captures, i);
      assert EnumDef(enumName, values) == SizedEnumDefOf(captures[i]);
      BlocksStep(template, headerFile, namespace, classname, enums, EnumDef(enumName, values));
      enums := enums + [EnumDef(enumName, values)];
      declarations := declarations + [main + Join(CdefLines(enumName, values), "\n")];
      i := i + 1;
    }
    assert captures[..i] == captures;
    decl := Join(declarations, "\n\n");
    if decl != [] {
      decl := decl + "\n";
    }
  }

  /** Under a template that is never empty, `decl` is empty exactly when
      there is no capture; otherwise it is the blocks joined by a blank
      line, ended by one newline. */
  lemma SizedDeclarationsShape(captures: seq<EnumCapture>, template: HeaderTemplate,
                               headerFile: string, namespace: string, classname: string)
    requires forall enumName: string :: template(headerFile, namespace, classname, enumName) != []
    ensures var blocks := Blocks(template, headerFile, namespace, classname, SizedEnumDefs(captures));
      var decl := Declarations(blocks);
      (decl == [] <==> captures == []) &&
      (captures != [] ==> decl == Join(blocks, "\n\n") + "\n" && decl[|decl| - 1] == '\n')
  {
    BlockDeclarations(template, headerFile, namespace, classname, SizedEnumDefs(captures));
  }

  /** The template condition is needed: with an empty template, an enum
      whose only value is `size` leaves no trace in `decl`. */
  lemma EmptyTemplateHidesCapture(captures: seq<EnumCapture>, template: HeaderTemplate)
    requires captures == [EnumCapture("E", "size")]
    requires forall a: string, b: string, c: string, d: string :: template(a, b, c, d) == []
    ensures captures != [] && Declarations(Blocks(template, "h", "n", "C", SizedEnumDefs(captures))) == []
  {
    OnlySentinel(captures[0]);
    var blocks := Blocks(template, "h", "n", "C", SizedEnumDefs(captures));
    assert blocks[0] == template("h", "n", "C", "E") + Join([], "\n");
    assert blocks == [[]];
  }

  /** An enum whose only value is `size` keeps no value. */
  lemma OnlySentinel(c: EnumCapture)
    requires c == EnumCapture("E", "size")
    ensures SizedEnumDefOf(c) == EnumDef("E", [])
  {
    WordIsPlain(c.body);
    ValuesRoundTrip([c.body]);
    assert Join([c.body], ", ") == c.body;
    StripWord(c.name);
  }

  lemma StripWord(w: string)
    requires w == "E"
    ensures Strip(w) == w
  {
    assert !IsSpace(w[0]);
  }

  // ---------------------------------------------------------------------
  // Relation to make_pyx.py

  /** Apart from the one `size`, both versions read a capture alike. */
  lemma SizedAgreesPerCapture(captures: seq<EnumCapture>, i: nat)
    requires i < |captures|
    ensures SizedEnumDefs(captures)[i] ==
      EnumDefs(captures)[i].(values := RemoveFirst(EnumDefs(captures)[i].values, SizeSentinel))
  {
  }

  /** Without any `size` value the two versions produce the same `enums`
      and, under the same template, the same declarations. */
  lemma {:induction false} SizedAgreesWithoutSentinel(captures: seq<EnumCapture>, headerFile: string, namespace: string, classname: string)
    requires forall i :: 0 <= i < |captures| ==> SizeSentinel !in EnumDefOf(captures[i]).values
    ensures SizedEnumDefs(captures) == EnumDefs(captures)
    ensures Declarations(Blocks(EnumClassTemplate, headerFile, namespace, classname, SizedEnumDefs(captures))) ==
      Declarations(Blocks(EnumClassTemplate, headerFile, namespace, classname, EnumDefs(captures)))
  {
    forall i | 0 <= i < |captures| ensures SizedEnumDefs(captures)[i] == EnumDefs(captures)[i] {
      RemoveAbsent(EnumDefOf(captures[i]).values, SizeSentinel);
    }
  }

  /** `Color { RED, GREEN, BLUE, size }` has the three colours as values. */
  lemma SentinelDropped(c: EnumCapture)
    requires c == EnumCapture("Color", " RED, GREEN, BLUE, size ")
    ensures SizedEnumDefOf(c).values == ["RED", "GREEN", "BLUE"]
  {
    var vs := ["RED", "GREEN", "BLUE", "size"];
    ColorPlain(vs);
    ColorRemove(vs);
    ColorBody(vs, c.body);
    ValuesRoundTrip(vs);
    SplitPadded(Join(vs, ", "));
    SameSplitSameValues(c.body, Join(vs, ", "));
  }

  lemma SameSplitSameValues(a: string, b: string)
    requires Split(a) == Split(b)
    ensures ValuesOf(a) == ValuesOf(b)
  {
    SplitStrip(a);
    SplitStrip(b);
  }

  lemma ColorPlain(vs: seq<string>)
    requires vs == ["RED", "GREEN", "BLUE", "size"]
    ensures forall i :: 0 <= i < |vs| ==> PlainValue(vs[i])
  {
    forall i | 0 <= i < |vs| ensures PlainValue(vs[i]) {
      WordIsPlain(vs[i]);
    }
  }

  lemma ColorRemove(vs: seq<string>)
    requires vs == ["RED", "GREEN", "BLUE", "size"]
    ensures RemoveFirst(vs, SizeSentinel) == ["RED", "GREEN", "BLUE"]
  {
    assert vs[2] != SizeSentinel by {
      assert vs[2][0] != SizeSentinel[0];
    }
    assert RemoveFirst(vs[3..], SizeSentinel) == [];
    assert RemoveFirst(vs[2..], SizeSentinel) == ["BLUE"];
    assert RemoveFirst(vs[1..], SizeSentinel) == ["GREEN", "BLUE"];
  }

  lemma WordIsPlain(v: string)
    requires v != [] && AllWord(v)
    ensures PlainValue(v)
  {
    assert IsWordChar(v[|v| - 1]);
  }

  lemma ColorBody(vs: seq<string>, body: string)
    requires vs == ["RED", "GREEN", "BLUE", "size"]
    requires body == " RED, GREEN, BLUE, size "
    ensures body == " " + Join(vs, ", ") + " "
  {
    assert Join(vs[3..], ", ") == "size";
    assert Join(vs[2..], ", ") == "BLUE, size";
    assert Join(vs[1..], ", ") == "GREEN, BLUE, size";
  }
}
