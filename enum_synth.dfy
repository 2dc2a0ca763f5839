/**
 * `make_enums` of make_pyx.py: every captured `enum class` becomes a name
 * with its ordered values and an extern declaration block for Cython.
 */
module EnumSynth {
  import opened Text
  import opened HeaderScanner

  /** An enum with its values; a value's position is its ordinal. */
  datatype EnumDef = EnumDef(name: string, values: seq<string>)

  /** The declaration template, applied to the header file name, the joined
      namespace, the struct name and the enum name. */
  type HeaderTemplate = (string, string, string, string) -> string

  /** ENUM_CLASS_TEMPLATE of make_pyx.py (its second, effective definition):
      the enum as an opaque C++ class inside the struct, then the opening of
      the extern block that holds its values. */
  function EnumClassTemplate(headerFile: string, namespace: string, classname: string, enumName: string): (r: string)
    ensures "cdef extern from \"<" <= r && r[|r| - 1] == '\n'
  {
    "cdef extern from \"<" + headerFile + ">\" namespace \"" + namespace + "::" + classname + "\":\n" +
    "    cdef cppclass " + enumName + ":\n" +
    "        pass\n" +
    "\n" +
    "cdef extern from \"<" + headerFile + ">\" namespace \"" + namespace + "::" + classname + "::" + enumName + "\":\n"
  }

  /** A token loses one trailing `,`, and nothing else. */
  function DropComma(p: string): (r: string)
    ensures r == p || p == r + ","
    ensures p != [] && p[|p| - 1] == ',' ==> |r| == |p| - 1
  {
    if p != [] && p[|p| - 1] == ',' then p[..|p| - 1] else p
  }

  /** DropComma on every token, in order. */
  function DropCommas(tokens: seq<string>): (r: seq<string>)
    ensures |r| == |tokens|
    ensures forall i :: 0 <= i < |tokens| ==> r[i] == DropComma(tokens[i])
  {
    if tokens == [] then [] else [DropComma(tokens[0])] + DropCommas(tokens[1..])
  }

  /** The values of a captured body: its whitespace tokens once trimmed,
      each without one trailing comma. */
  function ValuesOf(body: string): seq<string> {
    DropCommas(Split(Strip(body)))
  }

  /** The values are the whitespace tokens of the body, in order, each
      without one trailing comma. */
  lemma ValuesOfTokens(body: string)
    ensures |ValuesOf(body)| == |Split(body)|
    ensures forall i :: 0 <= i < |Split(body)| ==> ValuesOf(body)[i] == DropComma(Split(body)[i])
  {
    SplitStrip(body);
  }

  /** One capture as `make_enums` reads it: trimmed name, values in order. */
  function EnumDefOf(c: EnumCapture): EnumDef {
    EnumDef(Strip(c.name), ValuesOf(c.body))
  }

  /** The `enums` list: one definition per capture, in capture order. */
  function EnumDefs(captures: seq<EnumCapture>): (r: seq<EnumDef>)
    ensures |r| == |captures|
    ensures forall i :: 0 <= i < |captures| ==> r[i] == EnumDefOf(captures[i])
  {
    seq(|captures|, i requires 0 <= i < |captures| => EnumDefOf(captures[i]))
  }

  /** One `    cdef <enum> <value>` line per value. */
  function CdefLines(enumName: string, values: seq<string>): (r: seq<string>)
    ensures |r| == |values|
    ensures forall i :: 0 <= i < |values| ==> r[i] == "    cdef " + enumName + " " + values[i]
  {
    if values == [] then [] else ["    cdef " + enumName + " " + values[0]] + CdefLines(enumName, values[1..])
  }

  /** The declaration block of one enum: the template, then its value lines. */
  function Block(template: HeaderTemplate, headerFile: string, namespace: string, classname: string, d: EnumDef): string {
    template(headerFile, namespace, classname, d.name) + Join(CdefLines(d.name, d.values), "\n")
  }

  /** The `declarations` list: one block per definition, in order. */
  function Blocks(template: HeaderTemplate, headerFile: string, namespace: string, classname: string, defs: seq<EnumDef>): (r: seq<string>)
    ensures |r| == |defs|
    ensures forall i :: 0 <= i < |defs| ==> r[i] == Block(template, headerFile, namespace, classname, defs[i])
  {
    if defs == [] then []
    else
      var init := Blocks(template, headerFile, namespace, classname, defs[..|defs| - 1]);
      init + [Block(template, headerFile, namespace, classname, defs[|defs| - 1])]
  }

  /** `decl`: the blocks separated by a blank line, with a final newline
      when there is anything at all. */
  function Declarations(blocks: seq<string>): string {
    var d := Join(blocks, "\n\n");
    if d == [] then [] else d + "\n"
  }

  /** The loop of make_pyx.py's `make_enums`. */
  method MakeEnums(captures: seq<EnumCapture>, headerFile: string, namespace: string, classname: string)
    returns (enums: seq<EnumDef>, decl: string)
    ensures enums == EnumDefs(captures)
    ensures decl == Declarations(Blocks(EnumClassTemplate, headerFile, namespace, classname, enums))
  {
    enums := [];
    var declarations: seq<string> := [];
    var i := 0;
    while i < |captures|
      invariant 0 <= i <= |captures|
      invariant enums == EnumDefs(captures[..i])
      invariant declarations == Blocks(EnumClassTemplate, headerFile, namespace, classname, enums)
    {
      var enumName, parts := Strip(captures[i].name), Strip(captures[i].body);
      var values := DropCommas(Split(parts));
      var main := EnumClassTemplate(headerFile, namespace, classname, enumName);
      EnumDefsStep(captures, i);
      assert EnumDef(enumName, values) == EnumDefOf(captures[i]);
      BlocksStep(EnumClassTemplate, headerFile, namespace, classname, enums, EnumDef(enumName, values));
      enums := enums + [EnumDef(enumName, values)];
      declarations := declarations + [main + Join(CdefLines(enumName, values), "\n")];
      i := i + 1;
    }
    assert captures[..i] == captures;
    decl := Join(declarations, "\n\n");
    if decl != [] {
      decl := decl + "\n";
    }
  }

  lemma EnumDefsStep(captures: seq<EnumCapture>, i: nat)
    requires i < |captures|
    ensures EnumDefs(captures[..i + 1]) == EnumDefs(captures[..i]) + [EnumDefOf(captures[i])]
  {
    assert captures[..i + 1][..i] == captures[..i];
  }

  lemma BlocksStep(template: HeaderTemplate, headerFile: string, namespace: string, classname: string, defs: seq<EnumDef>, d: EnumDef)
    ensures Blocks(template, headerFile, namespace, classname, defs + [d]) ==
      Blocks(template, headerFile, namespace, classname, defs) + [Block(template, headerFile, namespace, classname, d)]
  {
    assert (defs + [d])[..|defs|] == defs;
  }

  // ---------------------------------------------------------------------
  // Properties

  /** A value as headers write it: non-empty, without whitespace, not
      ending with a comma. */
  predicate PlainValue(v: string) {
    v != [] && NoSpace(v) && v[|v| - 1] != ','
  }

  /** `v` followed by `,` for every value but the last. */
  function WithCommas(vs: seq<string>): seq<string> {
    if |vs| <= 1 then vs else [vs[0] + ","] + WithCommas(vs[1..])
  }

  lemma {:induction false} JoinCommaSpace(vs: seq<string>)
    ensures Join(vs, ", ") == Join(WithCommas(vs), " ")
    ensures |WithCommas(vs)| == |vs|
    decreases |vs|
  {
    if |vs| > 1 {
      JoinCommaSpace(vs[1..]);
      assert WithCommas(vs)[1..] == WithCommas(vs[1..]);
      assert vs[0] + ", " + Join(vs[1..], ", ") == (vs[0] + ",") + " " + Join(WithCommas(vs[1..]), " ");
    }
  }

  lemma {:induction false} WithCommasTokens(vs: seq<string>)
    requires forall i :: 0 <= i < |vs| ==> PlainValue(vs[i])
    ensures forall i :: 0 <= i < |WithCommas(vs)| ==> WithCommas(vs)[i] != [] && NoSpace(WithCommas(vs)[i])
    ensures DropCommas(WithCommas(vs)) == vs
    decreases |vs|
  {
    if |vs| > 1 {
      WithCommasTokens(vs[1..]);
      var w := WithCommas(vs);
      assert w == [vs[0] + ","] + WithCommas(vs[1..]);
      assert DropComma(vs[0] + ",") == vs[0];
      assert DropCommas(w) == [vs[0]] + vs[1..];
    }
  }

  /** A body written the usual way, `A, B, C`, gives back exactly its
      values: `make_enums` inverts `', '.join` on values that are
      non-empty, hold no whitespace and do not end the list with a comma. */
  lemma ValuesRoundTrip(vs: seq<string>)
    requires forall i :: 0 <= i < |vs| ==> PlainValue(vs[i])
    ensures ValuesOf(Join(vs, ", ")) == vs
  {
    JoinCommaSpace(vs);
    WithCommasTokens(vs);
    SplitJoin(WithCommas(vs));
    SplitStrip(Join(vs, ", "));
  }

  /** The template of make_pyx.py is never empty. */
  lemma EnumClassTemplateNonEmpty(headerFile: string, namespace: string, classname: string)
    ensures forall enumName: string :: EnumClassTemplate(headerFile, namespace, classname, enumName) != []
  {
  }

  /** A template that is never empty never yields an empty block. */
  lemma BlocksNonEmpty(template: HeaderTemplate, headerFile: string, namespace: string, classname: string, defs: seq<EnumDef>)
    requires forall enumName: string :: template(headerFile, namespace, classname, enumName) != []
    ensures forall i :: 0 <= i < |defs| ==> Blocks(template, headerFile, namespace, classname, defs)[i] != []
  {
    forall i | 0 <= i < |defs|
      ensures Blocks(template, headerFile, namespace, classname, defs)[i] != []
    {
      var d := defs[i];
      var t := template(headerFile, namespace, classname, d.name);
      assert |Block(template, headerFile, namespace, classname, d)| >= |t| > 0;
    }
  }

  /** Under a template that is never empty, `decl` is empty exactly when
      there is no definition; otherwise it is the blocks joined by a blank
      line, ended by one newline. */
  lemma BlockDeclarations(template: HeaderTemplate, headerFile: string, namespace: string, classname: string, defs: seq<EnumDef>)
    requires forall enumName: string :: template(headerFile, namespace, classname, enumName) != []
    ensures var blocks := Blocks(template, headerFile, namespace, classname, defs);
      var decl := Declarations(blocks);
      (decl == [] <==> defs == []) &&
      (defs != [] ==> decl == Join(blocks, "\n\n") + "\n" && decl[|decl| - 1] == '\n')
  {
    BlocksNonEmpty(template, headerFile, namespace, classname, defs);
    JoinEmptyIff(Blocks(template, headerFile, namespace, classname, defs), "\n\n");
  }

  /** `decl` is empty exactly when there is no capture; otherwise it is the
      blocks joined by a blank line, ended by one newline. */
  lemma DeclarationsShape(captures: seq<EnumCapture>, headerFile: string, namespace: string, classname: string)
    ensures var blocks := Blocks(EnumClassTemplate, headerFile, namespace, classname, EnumDefs(captures));
      var decl := Declarations(blocks);
      (decl == [] <==> captures == []) &&
      (captures != [] ==> decl == Join(blocks, "\n\n") + "\n" && decl[|decl| - 1] == '\n')
  {
    EnumClassTemplateNonEmpty(headerFile, namespace, classname);
    BlockDeclarations(EnumClassTemplate, headerFile, namespace, classname, EnumDefs(captures));
  }
}
