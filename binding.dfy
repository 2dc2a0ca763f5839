/**
 * `make` of make_pyx.py: from the model `read` recovers, the Cython text
 * that declares the struct, its enums and a wrapper class with one
 * property per field.
 */
module Binding {
  import opened Text
  import opened Outcomes
  import opened FieldLines
  import opened HeaderScanner
  import opened EnumSynth

  /** The name of the wrapped struct instance inside the Cython class. */
  const MemberName := "_instance"

  /** The separator between the field lines of the struct declaration. */
  const Indent := "\n        "

  /** The first line of every generated file, up to the timestamp. */
  const GeneratedOn := "# Automatically generated on "

  /** The end of the first line and the second line of every generated file. */
  const ByLine := "\n# by https://github.com/rec/make_pyx/make_pyx.py\n"

  /** The namespaces as one qualifier: joined with a single `:`. */
  function NamespacePath(namespaces: seq<string>): string {
    Join(namespaces, ":")
  }

  // ---------------------------------------------------------------------
  // Templates, as concatenations in slot order

  /** MAIN_TEMPLATE: the header comment, then the enum declarations. */
  function MainTemplate(timestamp: string, enumClass: string): string {
    GeneratedOn + timestamp + ByLine + enumClass
  }

  /** CLASS_TEMPLATE: the struct declaration and the wrapper class. */
  function ClassTemplate(headerFile: string, namespace: string, structDefinition: string, classname: string,
                         memberName: string, enumNames: string, strFormat: string, variableNames: string,
                         propertyList: string): string
  {
    "\n" +
    "cdef extern from \"<" + headerFile + ">\" namespace \"" + namespace + "\":\n" +
    structDefinition + "\n" +
    "\n" +
    "cdef class _" + classname + "(_Wrapper):\n" +
    "    cdef " + classname + " " + memberName + ";\n" +
    enumNames + "\n" +
    "    def __cinit__(self):\n" +
    "        clearStruct(self." + memberName + ")\n" +
    "\n" +
    "    def clear(self):\n" +
    "        clearStruct(self." + memberName + ")\n" +
    "\n" +
    "    def __str__(self):\n" +
    "        return \"(" + strFormat + ")\" % (\n" +
    "            " + variableNames + ")\n" +
    "\n" +
    propertyList
  }

  /** PROP_TEMPLATE: a property that reads and writes the field directly. */
  function PropTemplate(prop: string, memberName: string, typename: string): string {
    "    property " + prop + ":\n" +
    "        def __get__(self):\n" +
    "            return self." + memberName + "." + prop + "\n" +
    "        def __set__(self, " + typename + " x):\n" +
    "            self." + memberName + "." + prop + " = x\n"
  }

  /** ENUM_PROP_TEMPLATE: a property that reads and writes the field through
      the `<TYPE>_NAMES` table of its enum. */
  function EnumPropTemplate(prop: string, upperType: string, memberName: string, enumType: string): string {
    "    property " + prop + ":\n" +
    "        def __get__(self):\n" +
    "            return self." + upperType + "_NAMES[<int> self." + memberName + "." + prop + "]\n" +
    "        def __set__(self, string x):\n" +
    "            cdef uint8_t i\n" +
    "            i = self." + upperType + "_NAMES.index(x)\n" +
    "            self." + memberName + "." + prop + " = <" + enumType + ">(i)\n"
  }

  // ---------------------------------------------------------------------
  // Enum tables

  /** The keys of `enum_types`: the enum names. */
  function EnumNameSet(defs: seq<EnumDef>): set<string> {
    if defs == [] then {} else EnumNameSet(defs[..|defs| - 1]) + {defs[|defs| - 1].name}
  }

  /** `enum_types` holds exactly the names of the enums. */
  lemma {:induction false} EnumNameSetMembers(defs: seq<EnumDef>)
    ensures forall n :: n in EnumNameSet(defs) <==> exists i :: 0 <= i < |defs| && defs[i].name == n
    decreases |defs|
  {
    if defs != [] {
      var init := defs[..|defs| - 1];
      EnumNameSetMembers(init);
      assert forall i :: 0 <= i < |init| ==> init[i] == defs[i];
    }
  }

  function Quoted(v: string): string {
    "'" + v + "'"
  }

  /** The values of an enum as Python string literals, in order. */
  function QuotedValues(values: seq<string>): (r: seq<string>)
    ensures |r| == |values|
    ensures forall i :: 0 <= i < |values| ==> r[i] == Quoted(values[i])
  {
    if values == [] then [] else [Quoted(values[0])] + QuotedValues(values[1..])
  }

  /** The prefix of the table line of an enum named `name`. */
  function NamesKey(name: string): string {
    "    " + Upper(name) + "_NAMES = "
  }

  /** `    <NAME>_NAMES = 'A', 'B'`: the table that maps an ordinal to its name. */
  function NamesLine(d: EnumDef): string {
    NamesKey(d.name) + Join(QuotedValues(d.values), ", ")
  }

  /** One table line per enum, in order. */
  function NamesLines(defs: seq<EnumDef>): (r: seq<string>)
    ensures |r| == |defs|
    ensures forall i :: 0 <= i < |defs| ==> r[i] == NamesLine(defs[i])
  {
    if defs == [] then [] else NamesLines(defs[..|defs| - 1]) + [NamesLine(defs[|defs| - 1])]
  }

  /** `enum_names` as spliced into the class: the table lines between two
      newlines, or nothing when there is no enum. */
  function EnumNamesBlock(defs: seq<EnumDef>): string {
    var t := Join(NamesLines(defs), "\n");
    if t == [] then [] else "\n" + t + "\n"
  }

  lemma NamesStep(defs: seq<EnumDef>, i: nat)
    requires i < |defs|
    ensures EnumNameSet(defs[..i + 1]) == EnumNameSet(defs[..i]) + {defs[i].name}
    ensures NamesLines(defs[..i + 1]) == NamesLines(defs[..i]) + [NamesLine(defs[i])]
  {
    assert defs[..i + 1][..i] == defs[..i];
  }

  /** The first loop of `make`: `enum_types` and the table lines. */
  method EnumTables(enums: seq<EnumDef>) returns (enumTypes: set<string>, enumNames: seq<string>)
    ensures enumTypes == EnumNameSet(enums)
    ensures enumNames == NamesLines(enums)
  {
    enumTypes, enumNames := {}, [];
    var i := 0;
    while i < |enums|
      invariant 0 <= i <= |enums|
      invariant enumTypes == EnumNameSet(enums[..i])
      invariant enumNames == NamesLines(enums[..i])
    {
      var name, values := enums[i].name, enums[i].values;
      NamesStep(enums, i);
      enumTypes := enumTypes + {name};
      var quoted := Join(QuotedValues(values), ", ");
      enumNames := enumNames + ["    " + Upper(name) + "_NAMES = " + quoted];
      i := i + 1;
    }
    assert enums[..i] == enums;
  }

  // ---------------------------------------------------------------------
  // The struct declaration

  /** `t + ' ' + ', '.join(v)` for one field group. */
  function GroupLine(g: FieldGroup): string {
    g.typeName + " " + Join(g.variables, ", ")
  }

  function GroupLines(structs: seq<FieldGroup>): (r: seq<string>)
    ensures |r| == |structs|
    ensures forall i :: 0 <= i < |structs| ==> r[i] == GroupLine(structs[i])
  {
    if structs == [] then [] else [GroupLine(structs[0])] + GroupLines(structs[1..])
  }

  /** `struct_definition`: the struct line, then one indented line per
      field group when there is any. */
  function StructDefinition(classname: string, structs: seq<FieldGroup>): string {
    var s := Join(GroupLines(structs), Indent);
    "    struct " + classname + ":" + (if s == [] then [] else Indent + s)
  }

  // ---------------------------------------------------------------------
  // Fields and their classification

  /** One variable of the struct, with the type of its declaration line. */
  datatype Field = Field(name: string, typeName: string)

  function GroupFields(g: FieldGroup): seq<Field> {
    seq(|g.variables|, i requires 0 <= i < |g.variables| => Field(g.variables[i], g.typeName))
  }

  /** Every variable of every group, in declaration order. */
  function Fields(structs: seq<FieldGroup>): seq<Field> {
    if structs == [] then []
    else Fields(structs[..|structs| - 1]) + GroupFields(structs[|structs| - 1])
  }

  /** `props`: the variable lists of all groups, concatenated in order. */
  function Props(structs: seq<FieldGroup>): seq<string> {
    if structs == [] then []
    else Props(structs[..|structs| - 1]) + structs[|structs| - 1].variables
  }

  /** `variables_to_enum_type`: each variable of a group whose type is an
      enum name, mapped to that type; a later group overrides an earlier
      one for the same variable name. */
  function EnumTyped(structs: seq<FieldGroup>, enumTypes: set<string>): map<string, string> {
    if structs == [] then map[]
    else
      var m := EnumTyped(structs[..|structs| - 1], enumTypes);
      var g := structs[|structs| - 1];
      if g.typeName in enumTypes then m + map v | v in g.variables :: g.typeName else m
  }

  /** The loop of `make` that fills `variables_to_enum_type` and `props`. */
  method ClassifyFields(structs: seq<FieldGroup>, enumTypes: set<string>)
    returns (props: seq<string>, enumTyped: map<string, string>)
    ensures props == Props(structs)
    ensures enumTyped == EnumTyped(structs, enumTypes)
  {
    props, enumTyped := [], map[];
    var i := 0;
    while i < |structs|
      invariant 0 <= i <= |structs|
      invariant props == Props(structs[..i])
      invariant enumTyped == EnumTyped(structs[..i], enumTypes)
    {
      var t, v := structs[i].typeName, structs[i].variables;
      assert structs[..i + 1][..i] == structs[..i];
      if t in enumTypes {
        var j := 0;
        while j < |v|
          invariant 0 <= j <= |v|
          invariant enumTyped == EnumTyped(structs[..i], enumTypes) + map x | x in v[..j] :: t
        {
          assert v[..j + 1] == v[..j] + [v[j]];
          enumTyped := enumTyped[v[j] := t];
          j := j + 1;
        }
        assert v[..j] == v;
      }
      props := props + v;
      i := i + 1;
    }
    assert structs[..i] == structs;
  }

  /** One entry of `str_format`: quoted when the variable is enum-backed. */
  function FormatItem(name: string, enumTyped: map<string, string>): string {
    name + (if name in enumTyped then "='%s'" else "=%s")
  }

  function FormatItems(props: seq<string>, enumTyped: map<string, string>): seq<string> {
    seq(|props|, i requires 0 <= i < |props| => FormatItem(props[i], enumTyped))
  }

  function SelfItems(props: seq<string>): seq<string> {
    seq(|props|, i requires 0 <= i < |props| => "self." + props[i])
  }

  /** The property of one field: through the enum table when the variable
      is enum-backed, direct otherwise. */
  function PropText(f: Field, enumTyped: map<string, string>): string {
    if f.name in enumTyped then
      var t := enumTyped[f.name];
      EnumPropTemplate(f.name, Upper(t), MemberName, t)
    else PropTemplate(f.name, MemberName, f.typeName)
  }

  function PropTexts(fields: seq<Field>, enumTyped: map<string, string>): seq<string> {
    seq(|fields|, i requires 0 <= i < |fields| => PropText(fields[i], enumTyped))
  }

  lemma FieldsStep(structs: seq<FieldGroup>, i: nat)
    requires i < |structs|
    ensures Fields(structs[..i + 1]) == Fields(structs[..i]) + GroupFields(structs[i])
  {
    assert structs[..i + 1][..i] == structs[..i];
  }

  lemma PropertyStep(done: seq<Field>, g: FieldGroup, j: nat, enumTyped: map<string, string>)
    requires j < |g.variables|
    ensures PropTexts(done + GroupFields(g)[..j + 1], enumTyped) ==
      PropTexts(done + GroupFields(g)[..j], enumTyped) + [PropText(Field(g.variables[j], g.typeName), enumTyped)]
  {
    assert done + GroupFields(g)[..j + 1] == (done + GroupFields(g)[..j]) + [Field(g.variables[j], g.typeName)];
  }

  /** The nested loop of `make` that fills `property_list`. */
  method PropertyList(structs: seq<FieldGroup>, enumTyped: map<string, string>) returns (list: seq<string>)
    ensures list == PropTexts(Fields(structs), enumTyped)
  {
    list := [];
    var i := 0;
    while i < |structs|
      invariant 0 <= i <= |structs|
      invariant list == PropTexts(Fields(structs[..i]), enumTyped)
    {
      var typename, variables := structs[i].typeName, structs[i].variables;
      FieldsStep(structs, i);
      ghost var done := Fields(structs[..i]);
      var j := 0;
      while j < |variables|
        invariant 0 <= j <= |variables|
        invariant list == PropTexts(done + GroupFields(structs[i])[..j], enumTyped)
      {
        var prop := variables[j];
        var text;
        if prop in enumTyped {
          var t := enumTyped[prop];
          text := EnumPropTemplate(prop, Upper(t), MemberName, t);
        } else {
          text := PropTemplate(prop, MemberName, typename);
        }
        assert text == PropText(Field(prop, typename), enumTyped);
        PropertyStep(done, structs[i], j, enumTyped);
        list := list + [text];
        j := j + 1;
      }
      assert GroupFields(structs[i])[..j] == GroupFields(structs[i]);
      i := i + 1;
    }
    assert structs[..i] == structs;
  }

  // ---------------------------------------------------------------------
  // The whole output

  /** The enum declarations of a model, as `make` passes them to MAIN_TEMPLATE. */
  function EnumClassText(headerFile: string, m: HeaderModel): string {
    Declarations(Blocks(EnumClassTemplate, headerFile, NamespacePath(m.namespaces), m.classname, EnumDefs(m.enumClasses)))
  }

  /** CLASS_TEMPLATE filled in for a model, or nothing when there is no
      property. */
  function ClassSection(headerFile: string, m: HeaderModel): string {
    var enums := EnumDefs(m.enumClasses);
    var enumTyped := EnumTyped(m.structs, EnumNameSet(enums));
    var props := Props(m.structs);
    var propertyList := Join(PropTexts(Fields(m.structs), enumTyped), "\n");
    if propertyList == [] then []
    else
      ClassTemplate(headerFile, NamespacePath(m.namespaces), StructDefinition(m.classname, m.structs), m.classname,
                    MemberName, EnumNamesBlock(enums), Join(FormatItems(props, enumTyped), ", "),
                    Join(SelfItems(props), ", "), propertyList)
  }

  /** What `make` returns for a parsed header. */
  function Render(headerFile: string, m: HeaderModel, timestamp: string): string {
    MainTemplate(timestamp, EnumClassText(headerFile, m)) + ClassSection(headerFile, m)
  }

  /** What `make` returns for a header given as its lines, or the error
      `read` raises. */
  function Generate(headerFile: string, lines: seq<string>, timestamp: string): Result<string> {
    match Scan(lines)
    case Failure(e) => Failure(e)
    case Success(m) => Success(Render(headerFile, m, timestamp))
  }

  /** `make`, with the file read as `lines` and the clock read as `timestamp`. */
  method Make(headerFile: string, lines: seq<string>, timestamp: string) returns (r: Result<string>)
    ensures r == Generate(headerFile, lines, timestamp)
  {
    var model := Read(lines);
    if model.Failure? {
      return Failure(model.error);
    }
    var m := model.value;
    var namespace := Join(m.namespaces, ":");
    var enums, enumClass := MakeEnums(m.enumClasses, headerFile, namespace, m.classname);
    var enumTypes, names := EnumTables(enums);
    var enumNames := Join(names, "\n");
    if enumNames != [] {
      enumNames := "\n" + enumNames + "\n";
    }
    var pyxStructs := Join(GroupLines(m.structs), Indent);
    if pyxStructs != [] {
      pyxStructs := Indent + pyxStructs;
    }
    var structDefinition := "    struct " + m.classname + ":" + pyxStructs;
    assert enumNames == EnumNamesBlock(enums);
    assert structDefinition == StructDefinition(m.classname, m.structs);
    var props, enumTyped := ClassifyFields(m.structs, enumTypes);
    var strFormat := Join(FormatItems(props, enumTyped), ", ");
    var variableNames := Join(SelfItems(props), ", ");
    var list := PropertyList(m.structs, enumTyped);
    var propertyList := Join(list, "\n");
    assert enumClass == EnumClassText(headerFile, m);
    var mt := MainTemplate(timestamp, enumClass);
    if propertyList != [] {
      mt := mt + ClassTemplate(headerFile, namespace, structDefinition, m.classname, MemberName,
                               enumNames, strFormat, variableNames, propertyList);
    } else {
      assert mt == mt + [];
    }
    assert mt == Render(headerFile, m, timestamp);
    r := Success(mt);
  }

  // ---------------------------------------------------------------------
  // Properties

  /** No variable name appears in two different field groups. A default
      value longer than one token leaks its later tokens into the names of
      its group, so a struct that compiles can still break this. */
  predicate UniqueNames(structs: seq<FieldGroup>) {
    forall j1, j2, v ::
      (0 <= j1 < |structs| && 0 <= j2 < |structs| && v in structs[j1].variables && v in structs[j2].variables)
      ==> j1 == j2
  }

  /** A variable is enum-backed exactly when some group declaring it has an
      enum name as its type, and it is always mapped to an enum name. */
  lemma {:induction false} EnumTypedKeys(structs: seq<FieldGroup>, enumTypes: set<string>)
    ensures forall v :: v in EnumTyped(structs, enumTypes) <==>
      exists j :: 0 <= j < |structs| && structs[j].typeName in enumTypes && v in structs[j].variables
    ensures forall v :: v in EnumTyped(structs, enumTypes) ==> EnumTyped(structs, enumTypes)[v] in enumTypes
    decreases |structs|
  {
    if structs != [] {
      var init, g := structs[..|structs| - 1], structs[|structs| - 1];
      EnumTypedKeys(init, enumTypes);
      assert forall j :: 0 <= j < |init| ==> init[j] == structs[j];
      forall v | v in EnumTyped(structs, enumTypes)
        ensures exists j :: 0 <= j < |structs| && structs[j].typeName in enumTypes && v in structs[j].variables
      {
        if !(g.typeName in enumTypes && v in g.variables) {
          assert v in EnumTyped(init, enumTypes);
          var j :| 0 <= j < |init| && init[j].typeName in enumTypes && v in init[j].variables;
          assert structs[j] == init[j];
        }
      }
      forall v | exists j :: 0 <= j < |structs| && structs[j].typeName in enumTypes && v in structs[j].variables
        ensures v in EnumTyped(structs, enumTypes)
      {
        var j :| 0 <= j < |structs| && structs[j].typeName in enumTypes && v in structs[j].variables;
        if j < |init| {
          assert init[j] == structs[j];
        }
      }
    }
  }

  /** With unique names, a variable is enum-backed exactly when the type of
      its own group is an enum name, and then it maps to that type. */
  lemma {:induction false} EnumTypedUnique(structs: seq<FieldGroup>, enumTypes: set<string>, j: nat, v: string)
    requires UniqueNames(structs)
    requires j < |structs| && v in structs[j].variables
    ensures v in EnumTyped(structs, enumTypes) <==> structs[j].typeName in enumTypes
    ensures v in EnumTyped(structs, enumTypes) ==> EnumTyped(structs, enumTypes)[v] == structs[j].typeName
    decreases |structs|
  {
    var init, g := structs[..|structs| - 1], structs[|structs| - 1];
    assert forall k :: 0 <= k < |init| ==> init[k] == structs[k];
    if j == |structs| - 1 {
      if g.typeName !in enumTypes {
        EnumTypedKeys(init, enumTypes);
        forall k | 0 <= k < |init| ensures !(init[k].typeName in enumTypes && v in init[k].variables) {
          assert init[k] == structs[k];
        }
      }
    } else {
      assert UniqueNames(init);
      EnumTypedUnique(init, enumTypes, j, v);
      assert v !in g.variables;
    }
  }

  /** `props` and the fields agree name by name. */
  lemma {:induction false} FieldsAndProps(structs: seq<FieldGroup>)
    ensures |Fields(structs)| == |Props(structs)|
    ensures forall k :: 0 <= k < |Props(structs)| ==> Fields(structs)[k].name == Props(structs)[k]
    decreases |structs|
  {
    if structs != [] {
      FieldsAndProps(structs[..|structs| - 1]);
    }
  }

  /** Every field comes from some variable of some group. */
  lemma {:induction false} FieldFromGroup(structs: seq<FieldGroup>, k: nat) returns (j: nat, i: nat)
    requires k < |Fields(structs)|
    ensures j < |structs| && i < |structs[j].variables|
    ensures Fields(structs)[k] == Field(structs[j].variables[i], structs[j].typeName)
    decreases |structs|
  {
    var init := structs[..|structs| - 1];
    if k < |Fields(init)| {
      j, i := FieldFromGroup(init, k);
      assert init[j] == structs[j];
    } else {
      j, i := |structs| - 1, k - |Fields(init)|;
    }
  }

  /** `props` lists the variables group by group in declaration order:
      variable `i` of group `j` comes after all variables of the groups
      before it. */
  lemma {:induction false} FieldsInOrder(structs: seq<FieldGroup>, j: nat, i: nat)
    requires j < |structs| && i < |structs[j].variables|
    ensures |Props(structs[..j])| + i < |Props(structs)| == |Fields(structs)|
    ensures Props(structs)[|Props(structs[..j])| + i] == structs[j].variables[i]
    ensures Fields(structs)[|Props(structs[..j])| + i] == Field(structs[j].variables[i], structs[j].typeName)
    decreases |structs|
  {
    var init := structs[..|structs| - 1];
    FieldsAndProps(init);
    FieldsAndProps(structs);
    if j == |structs| - 1 {
      assert structs[..j] == init;
    } else {
      FieldsInOrder(init, j, i);
      assert init[..j] == structs[..j];
      assert init[j] == structs[j];
    }
  }

  /** With unique names, each field is rendered from its own group's type:
      an enum-typed field is quoted in `__str__` and gets the enum property
      with the upper-cased type as table name; any other field is bare and
      gets the plain property. One entry per field, in declaration order. */
  lemma FieldRendering(structs: seq<FieldGroup>, defs: seq<EnumDef>, k: nat)
    requires UniqueNames(structs)
    requires k < |Props(structs)|
    ensures |Fields(structs)| == |Props(structs)|
    ensures var enumTypes := EnumNameSet(defs);
      var enumTyped := EnumTyped(structs, enumTypes);
      var f := Fields(structs)[k];
      |FormatItems(Props(structs), enumTyped)| == |SelfItems(Props(structs))| ==
        |PropTexts(Fields(structs), enumTyped)| == |Props(structs)| &&
      FormatItems(Props(structs), enumTyped)[k] == f.name + (if f.typeName in enumTypes then "='%s'" else "=%s") &&
      SelfItems(Props(structs))[k] == "self." + f.name &&
      PropTexts(Fields(structs), enumTyped)[k] ==
        (if f.typeName in enumTypes then EnumPropTemplate(f.name, Upper(f.typeName), MemberName, f.typeName)
         else PropTemplate(f.name, MemberName, f.typeName))
  {
    FieldsAndProps(structs);
    var j, i := FieldFromGroup(structs, k);
    EnumTypedUnique(structs, EnumNameSet(defs), j, structs[j].variables[i]);
  }

  /** Every enum-backed variable names, through its upper-cased type, a
      `<NAME>_NAMES` table that the class defines. */
  lemma EnumBackedHasTable(structs: seq<FieldGroup>, defs: seq<EnumDef>, v: string)
    requires v in EnumTyped(structs, EnumNameSet(defs))
    ensures exists i :: 0 <= i < |defs| &&
                        NamesLines(defs)[i] == NamesKey(EnumTyped(structs, EnumNameSet(defs))[v]) + Join(QuotedValues(defs[i].values), ", ")
  {
    EnumTypedKeys(structs, EnumNameSet(defs));
    EnumNameSetMembers(defs);
    var t := EnumTyped(structs, EnumNameSet(defs))[v];
    var i :| 0 <= i < |defs| && defs[i].name == t;
    assert NamesLines(defs)[i] == NamesLine(defs[i]);
  }

  lemma PropTextsNonEmpty(fields: seq<Field>, enumTyped: map<string, string>)
    ensures forall i :: 0 <= i < |fields| ==> PropTexts(fields, enumTyped)[i] != []
  {
    forall i | 0 <= i < |fields| ensures PropTexts(fields, enumTyped)[i] != [] {
      var f := fields[i];
      if f.name in enumTyped {
        var t := enumTyped[f.name];
        assert |EnumPropTemplate(f.name, Upper(t), MemberName, t)| > 0;
      } else {
        assert |PropTemplate(f.name, MemberName, f.typeName)| > 0;
      }
    }
  }

  lemma ClassTemplateNonEmpty(headerFile: string, namespace: string, structDefinition: string, classname: string,
                              memberName: string, enumNames: string, strFormat: string, variableNames: string,
                              propertyList: string)
    ensures ClassTemplate(headerFile, namespace, structDefinition, classname, memberName, enumNames,
                          strFormat, variableNames, propertyList) != []
  {
  }

  /** The class section is there exactly when the struct has a variable. */
  lemma ClassSectionEmptyIff(headerFile: string, m: HeaderModel)
    ensures ClassSection(headerFile, m) == [] <==> Props(m.structs) == []
  {
    var enums := EnumDefs(m.enumClasses);
    var enumTyped := EnumTyped(m.structs, EnumNameSet(enums));
    var props := Props(m.structs);
    var texts := PropTexts(Fields(m.structs), enumTyped);
    PropTextsNonEmpty(Fields(m.structs), enumTyped);
    JoinEmptyIff(texts, "\n");
    FieldsAndProps(m.structs);
    ClassTemplateNonEmpty(headerFile, NamespacePath(m.namespaces), StructDefinition(m.classname, m.structs),
                          m.classname, MemberName, EnumNamesBlock(enums), Join(FormatItems(props, enumTyped), ", "),
                          Join(SelfItems(props), ", "), Join(texts, "\n"));
  }

  lemma AppendIff(a: string, c: string)
    ensures a <= a + c
    ensures a + c == a <==> c == []
  {
    if a + c == a {
      assert |c| == 0;
    }
  }

  /** The output always starts with the header comment and the enum
      declarations; the class section follows exactly when the struct has
      at least one variable. */
  lemma ClassSectionIff(headerFile: string, m: HeaderModel, timestamp: string)
    ensures MainTemplate(timestamp, EnumClassText(headerFile, m)) <= Render(headerFile, m, timestamp)
    ensures Render(headerFile, m, timestamp) == MainTemplate(timestamp, EnumClassText(headerFile, m)) <==>
      Props(m.structs) == []
  {
    ClassSectionEmptyIff(headerFile, m);
    AppendIff(MainTemplate(timestamp, EnumClassText(headerFile, m)), ClassSection(headerFile, m));
  }

  /** MAIN_TEMPLATE followed by any text, with the timestamp split out. */
  lemma MainTemplateTimestamp(timestamp: string, enumClass: string, section: string)
    ensures MainTemplate(timestamp, enumClass) + section ==
      GeneratedOn + timestamp + (MainTemplate("", enumClass) + section)[|GeneratedOn|..]
  {
    var rest := ByLine + enumClass + section;
    assert MainTemplate(timestamp, enumClass) + section == GeneratedOn + timestamp + rest;
    assert MainTemplate("", enumClass) + section == GeneratedOn + rest;
    assert (GeneratedOn + rest)[|GeneratedOn|..] == rest;
  }

  /** The timestamp is the only part of the output that depends on the
      clock: it sits right after the fixed opening words, and the rest is
      the same for every timestamp. */
  lemma TimestampOnly(headerFile: string, m: HeaderModel, timestamp: string)
    ensures Render(headerFile, m, timestamp) ==
      GeneratedOn + timestamp + Render(headerFile, m, "")[|GeneratedOn|..]
  {
    MainTemplateTimestamp(timestamp, EnumClassText(headerFile, m), ClassSection(headerFile, m));
  }
}
