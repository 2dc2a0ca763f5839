/**
 * `read` of make_pyx.py: a two-mode line scanner that recovers the namespaces,
 * the struct name, its field lines and its `enum class` lines from a C++
 * header given as a sequence of lines.
 */
module HeaderScanner {
  import opened Text
  import opened Outcomes
  import opened FieldLines

  /** Groups 1 and 2 of a match of the `enum class` pattern. */
  datatype EnumCapture = EnumCapture(name: string, body: string)

  /** The four values `read` returns. */
  datatype HeaderModel = HeaderModel(
    namespaces: seq<string>,
    structs: seq<FieldGroup>,
    classname: string,
    enumClasses: seq<EnumCapture>)

  const EmptyModel := HeaderModel([], [], "", [])

  const NamespaceKeyword := "namespace "
  const StructKeyword := "struct "
  const EnumClassKeyword := "enum class "

  /** Length of the run of word characters that starts `s`. */
  function WordLen(s: string): (n: nat)
    ensures n <= |s| && AllWord(s[..n])
    ensures n == |s| || !IsWordChar(s[n])
  {
    if s == [] || !IsWordChar(s[0]) then 0 else 1 + WordLen(s[1..])
  }

  lemma {:induction false} WordLenOf(w: string, rest: string)
    requires AllWord(w)
    requires rest == [] || !IsWordChar(rest[0])
    ensures WordLen(w + rest) == |w|
    decreases |w|
  {
    if w != [] {
      assert (w + rest)[1..] == w[1..] + rest;
      WordLenOf(w[1..], rest);
    } else {
      assert w + rest == rest;
    }
  }

  /** The anchored patterns `namespace (\w+)` and `struct (\w+)`: the
      keyword, then the longest run of word characters, which must not be
      empty; the result is that run (group 1). */
  function MatchKeyword(keyword: string, line: string): (r: Option<string>)
    ensures r.None? <==> !(keyword <= line && |line| > |keyword| && IsWordChar(line[|keyword|]))
    ensures r.Some? ==> r.value != [] && AllWord(r.value) && keyword + r.value <= line
    ensures r.Some? ==> |keyword| + |r.value| == |line| || !IsWordChar(line[|keyword| + |r.value|])
  {
    if keyword <= line then
      var rest := line[|keyword|..];
      var n := WordLen(rest);
      if n > 0 then
        assert line[..|keyword| + n] == keyword + rest[..n];
        Some(rest[..n])
      else None
    else None
  }

  /** Every decomposition `keyword + name + rest` with a maximal name is found. */
  lemma MatchKeywordComplete(keyword: string, line: string, name: string, rest: string)
    requires line == keyword + name + rest
    requires name != [] && AllWord(name)
    requires rest == [] || !IsWordChar(rest[0])
    ensures MatchKeyword(keyword, line) == Some(name)
  {
    assert line[|keyword|..] == name + rest;
    WordLenOf(name, rest);
    assert (name + rest)[..|name|] == name;
  }

  /** The anchored pattern `enum class (\w+) \{([^}]+)}`: the name, then a
      blank and `{`, then a non-empty run without `}`, closed by `}`. The
      result holds the name (group 1) and that run (group 2). */
  function MatchEnumClass(line: string): (r: Option<EnumCapture>)
    ensures r.Some? ==> EnumClassKeyword + r.value.name + " {" + r.value.body + "}" <= line
    ensures r.Some? ==> r.value.name != [] && AllWord(r.value.name)
    ensures r.Some? ==> r.value.body != [] && '}' !in r.value.body
  {
    if !(EnumClassKeyword <= line) then None
    else
      var rest := line[|EnumClassKeyword|..];
      var n := WordLen(rest);
      if n == 0 || !(" {" <= rest[n..]) then None
      else
        var after := rest[n + 2..];
        var k := IndexOfChar(after, '}');
        if k == 0 || k == |after| then None
        else
          EnumShape(line, n, k);
          Some(EnumCapture(rest[..n], after[..k]))
  }

  lemma EnumShape(line: string, n: nat, k: nat)
    requires EnumClassKeyword <= line
    requires n <= |line| - |EnumClassKeyword| && " {" <= line[|EnumClassKeyword|..][n..]
    requires k < |line[|EnumClassKeyword|..][n + 2..]|
    requires line[|EnumClassKeyword|..][n + 2..][k] == '}'
    ensures var rest := line[|EnumClassKeyword|..];
      EnumClassKeyword + rest[..n] + " {" + rest[n + 2..][..k] + "}" <= line
  {
    assert |" {"| == 2 && "}" == ['}'];
    PartsPrefix(line, EnumClassKeyword, " {", '}', n, k);
  }

  /** A line cut as key, a run of `n`, `open`, a run of `k`, `close`. */
  lemma PartsPrefix(line: string, key: string, open: string, close: char, n: nat, k: nat)
    requires key <= line
    requires n <= |line| - |key| && open <= line[|key|..][n..]
    requires k < |line[|key|..][n + |open|..]|
    requires line[|key|..][n + |open|..][k] == close
    ensures var rest := line[|key|..];
      key + rest[..n] + open + rest[n + |open|..][..k] + [close] <= line
  {
    var rest := line[|key|..];
    var after := rest[n + |open|..];
    assert line == key + rest;
    assert rest == rest[..n] + open + after;
    assert after == after[..k] + [close] + after[k + 1..];
  }

  /** Every line of the shape the pattern describes is matched, and yields
      exactly its name and the text up to the first `}`. */
  lemma MatchEnumClassComplete(line: string, name: string, body: string, tail: string)
    requires line == EnumClassKeyword + name + " {" + body + "}" + tail
    requires name != [] && AllWord(name)
    requires body != [] && '}' !in body
    ensures MatchEnumClass(line) == Some(EnumCapture(name, body))
  {
    assert "}" == ['}'] && |" {"| == 2 && !IsWordChar(" {"[0]);
    CutsOf(line, EnumClassKeyword, name, " {", body, '}', tail);
    MatchFromCuts(line, |name|, |body|);
  }

  /** A line built as key, a word, `open`, a body without `c`, then `c`
      and anything, cuts back into those parts. */
  lemma CutsOf(line: string, key: string, name: string, open: string, body: string, c: char, tail: string)
    requires line == key + name + open + body + [c] + tail
    requires AllWord(name) && open != [] && !IsWordChar(open[0]) && c !in body
    ensures key <= line
    ensures WordLen(line[|key|..]) == |name|
    ensures open <= line[|key|..][|name|..]
    ensures |body| < |line[|key|..][|name| + |open|..]|
    ensures IndexOfChar(line[|key|..][|name| + |open|..], c) == |body|
    ensures line[|key|..][..|name|] == name && line[|key|..][|name| + |open|..][..|body|] == body
  {
    var rest := line[|key|..];
    var close := [c] + tail;
    assert line == key + (name + (open + body + close));
    assert rest == name + (open + body + close);
    WordLenOf(name, open + body + close);
    assert rest[|name|..] == open + (body + close);
    var after := rest[|name| + |open|..];
    assert after == body + close;
    IndexOfCharAt(after, c, |body|);
  }

  /** The match read off from where the name and the body end. */
  lemma MatchFromCuts(line: string, n: nat, k: nat)
    requires EnumClassKeyword <= line
    requires WordLen(line[|EnumClassKeyword|..]) == n > 0
    requires " {" <= line[|EnumClassKeyword|..][n..]
    requires IndexOfChar(line[|EnumClassKeyword|..][n + 2..], '}') == k
    requires 0 < k < |line[|EnumClassKeyword|..][n + 2..]|
    ensures var rest := line[|EnumClassKeyword|..];
      MatchEnumClass(line) == Some(EnumCapture(rest[..n], rest[n + 2..][..k]))
  {
  }

  lemma IndexOfCharAt(s: string, c: char, k: nat)
    requires k < |s| && s[k] == c && c !in s[..k]
    ensures IndexOfChar(s, c) == k
  {
    assert forall i :: 0 <= i < k ==> s[i] == s[..k][i];
  }

  /** An `enum class` line always contains `{`, so it would end the struct
      body if it were not tried first. */
  lemma EnumLineHasBrace(line: string)
    requires MatchEnumClass(line).Some?
    ensures '{' in line
  {
    var c := MatchEnumClass(line).value;
    var n := |EnumClassKeyword| + |c.name|;
    assert line[n + 1] == (EnumClassKeyword + c.name + " {" + c.body + "}")[n + 1];
  }

  /** One line as `read` sees it: cut at the first `//`, then stripped. */
  function Normalize(line: string): (r: string)
    ensures forall i :: !CommentAt(r, i)
    ensures r == [] || (!IsSpace(r[0]) && !IsSpace(r[|r| - 1]))
    ensures |r| <= |line|
  {
    var k := CommentStart(line);
    var cut := line[..k];
    var r := Strip(cut);
    var lo := StripStart(cut);
    forall i | 0 <= i && i + 1 < |r| ensures !(r[i] == '/' && r[i + 1] == '/') {
      assert r[i] == line[lo + i] && r[i + 1] == line[lo + i + 1];
      assert !CommentAt(line, lo + i);
    }
    r
  }

  /** The line that ends the struct body: it holds `{` or `(`, or starts
      with `};`, `class` or `template`. */
  predicate IsTerminator(line: string) {
    '{' in line || '(' in line || "};" <= line || "class" <= line || "template" <= line
  }

  /** A normalized line that stops the scan inside the struct. */
  predicate EndsBody(line: string) {
    line != [] && MatchEnumClass(line).None? && IsTerminator(line)
  }

  predicate OpensStruct(line: string) {
    MatchKeyword(StructKeyword, line).Some?
  }

  /** What one normalized line does to the scan: go on with a new model and
      mode, stop with the model collected so far, or fail. */
  datatype Step =
    | Next(model: HeaderModel, inStruct: bool)
    | Stop(model: HeaderModel)
    | Abort(error: Error)

  /** The body of the loop of `read` for one line already cut at `//` and
      stripped, in the mode `inStruct`. */
  function StepLine(line: string, m: HeaderModel, inStruct: bool): Step {
    if line == [] then Next(m, inStruct)
    else if inStruct then
      match MatchEnumClass(line)
      case Some(c) => Next(m.(enumClasses := m.enumClasses + [c]), true)
      case None =>
        if IsTerminator(line) then Stop(m)
        else
          match Cleaned(line)
          case Failure(e) => Abort(e)
          case Success(g) => Next(m.(structs := m.structs + [g]), true)
    else
      match MatchKeyword(NamespaceKeyword, line)
      case Some(n) => Next(m.(namespaces := m.namespaces + [n]), false)
      case None =>
        match MatchKeyword(StructKeyword, line)
        case Some(c) => Next(m.(classname := c), true)
        case None => Next(m, false)
  }

  /** Inside the struct an `enum class` line is captured although it holds
      a `{`, because the pattern is tried before the terminator test; any
      other terminator line stops the scan and adds nothing. */
  lemma InStructStep(line: string, m: HeaderModel)
    requires line != []
    ensures MatchEnumClass(line).Some? ==>
      IsTerminator(line) &&
      StepLine(line, m, true) == Next(m.(enumClasses := m.enumClasses + [MatchEnumClass(line).value]), true)
    ensures EndsBody(line) ==> StepLine(line, m, true) == Stop(m)
  {
    if MatchEnumClass(line).Some? {
      EnumLineHasBrace(line);
    }
  }

  /** The scan of `lines`, starting from the collected model `m`, inside the
      struct body when `inStruct`. */
  function ScanFrom(lines: seq<string>, m: HeaderModel, inStruct: bool): Result<HeaderModel>
    decreases |lines|
  {
    if lines == [] then Success(m)
    else
      match StepLine(Normalize(lines[0]), m, inStruct)
      case Next(m', inStruct') => ScanFrom(lines[1..], m', inStruct')
      case Stop(m') => Success(m')
      case Abort(e) => Failure(e)
  }

  /** What `read` returns for a header given as its lines, or the error it raises. */
  function Scan(lines: seq<string>): Result<HeaderModel> {
    ScanFrom(lines, EmptyModel, false)
  }

  lemma ScanUnfold(lines: seq<string>, i: nat, m: HeaderModel, inStruct: bool)
    requires i < |lines|
    ensures ScanFrom(lines[i..], m, inStruct) ==
      match StepLine(Normalize(lines[i]), m, inStruct)
      case Next(m', inStruct') => ScanFrom(lines[i + 1..], m', inStruct')
      case Stop(m') => Success(m')
      case Abort(e) => Failure(e)
  {
    assert lines[i..][0] == lines[i] && lines[i..][1..] == lines[i + 1..];
  }

  lemma CutThenStrip(s: string, cut: string)
    requires cut == s[..CommentStart(s)]
    ensures Strip(cut) == Normalize(s)
  {
  }

  /** The body of the loop of `read` for a non-blank line already cut at
      `//` and stripped: its `continue`s give `Next`, its `break` gives
      `Stop`, and a failing `clean_struct` gives `Abort`. */
  method ReadLine(line: string, m: HeaderModel, inStruct: bool) returns (s: Step)
    requires line != []
    ensures s == StepLine(line, m, inStruct)
  {
    if inStruct {
      var e := MatchEnumClass(line);
      if e.Some? {
        return Next(m.(enumClasses := m.enumClasses + [e.value]), true);
      }
      if IsTerminator(line) {
        return Stop(m);
      }
      var g := CleanStruct(line);
      if g.Failure? {
        return Abort(g.error);
      }
      return Next(m.(structs := m.structs + [g.value]), true);
    }
    var k := MatchKeyword(NamespaceKeyword, line);
    if k.Some? {
      return Next(m.(namespaces := m.namespaces + [k.value]), false);
    }
    k := MatchKeyword(StructKeyword, line);
    if k.Some? {
      return Next(m.(classname := k.value), true);
    }
    return Next(m, false);
  }

  /** The start of the loop body of `read`: the line is cut at its first
      `//` and stripped. */
  method CutLine(raw: string) returns (line: string)
    ensures line == Normalize(raw)
  {
    line := raw;
    var comment := CommentStart(line);
    if comment < |line| {
      line := line[..comment];
    }
    CutThenStrip(raw, line);
    line := Strip(line);
  }

  /** The loop of `read` over the lines of the header, with its `in_struct`
      flag; the model holds its lists `namespace`, `structs` and
      `enum_class` and its `classname`. */
  method Read(lines: seq<string>) returns (r: Result<HeaderModel>)
    ensures r == Scan(lines)
  {
    var inStruct := false;
    var model := EmptyModel;
    var i := 0;
    while i < |lines|
      invariant 0 <= i <= |lines|
      invariant ScanFrom(lines[i..], model, inStruct) == Scan(lines)
    {
      ScanUnfold(lines, i, model, inStruct);
      var line := CutLine(lines[i]);
      i := i + 1;
      if line == [] {
        continue;
      }
      var step := ReadLine(line, model, inStruct);
      match step
      case Next(m', inStruct') =>
        model, inStruct := m', inStruct';
      case Stop(m') =>
        return Success(m');
      case Abort(e) =>
        return Failure(e);
    }
    assert lines[i..] == [];
    r := Success(model);
  }

  // ---------------------------------------------------------------------
  // Properties of the scan

  /** A struct body is only collected under a struct name: `structs` and
      `enum_class` are non-empty only once `classname` is set. */
  ghost predicate Coherent(m: HeaderModel, inStruct: bool) {
    (inStruct ==> m.classname != []) &&
    (m.structs != [] || m.enumClasses != [] ==> m.classname != [])
  }

  /** Each step keeps the model coherent. */
  lemma StepKeepsCoherent(line: string, m: HeaderModel, inStruct: bool)
    requires Coherent(m, inStruct)
    ensures StepLine(line, m, inStruct).Next? ==>
      Coherent(StepLine(line, m, inStruct).model, StepLine(line, m, inStruct).inStruct)
    ensures StepLine(line, m, inStruct).Stop? ==> Coherent(StepLine(line, m, inStruct).model, false)
  {
  }

  lemma {:induction false} ScanKeepsCoherent(lines: seq<string>, m: HeaderModel, inStruct: bool)
    requires Coherent(m, inStruct)
    ensures ScanFrom(lines, m, inStruct).Success? ==> Coherent(ScanFrom(lines, m, inStruct).value, false)
    decreases |lines|
  {
    if lines != [] {
      var step := StepLine(Normalize(lines[0]), m, inStruct);
      StepKeepsCoherent(Normalize(lines[0]), m, inStruct);
      if step.Next? {
        ScanKeepsCoherent(lines[1..], step.model, step.inStruct);
      }
    }
  }

  /** The invariant of `read`: fields or enums are returned only together
      with a non-empty struct name. */
  lemma ReadIsCoherent(lines: seq<string>)
    ensures Scan(lines).Success? ==>
      (Scan(lines).value.structs != [] || Scan(lines).value.enumClasses != [] ==> Scan(lines).value.classname != [])
  {
    ScanKeepsCoherent(lines, EmptyModel, false);
  }

  /** Inside the struct the namespaces and the struct name never change, and
      fields and enums are only ever appended. */
  lemma {:induction false} InStructOnlyAppends(lines: seq<string>, m: HeaderModel)
    ensures ScanFrom(lines, m, true).Success? ==>
      var m' := ScanFrom(lines, m, true).value;
      m'.namespaces == m.namespaces && m'.classname == m.classname &&
      m.structs <= m'.structs && m.enumClasses <= m'.enumClasses
    decreases |lines|
  {
    if lines != [] {
      var step := StepLine(Normalize(lines[0]), m, true);
      if step.Next? {
        InStructOnlyAppends(lines[1..], step.model);
      }
    }
  }

  /** The lines after the one that ends the struct body are never looked at. */
  lemma {:induction false} StopsAtTerminator(lines: seq<string>, m: HeaderModel, j: nat, extra: seq<string>)
    requires j < |lines| && EndsBody(Normalize(lines[j]))
    ensures ScanFrom(lines, m, true) == ScanFrom(lines[..j + 1] + extra, m, true)
    decreases j
  {
    var other := lines[..j + 1] + extra;
    assert other[0] == lines[0];
    if j > 0 {
      assert other[1..] == lines[1..][..j] + extra;
      var step := StepLine(Normalize(lines[0]), m, true);
      if step.Next? {
        assert step.inStruct;
        StopsAtTerminator(lines[1..], step.model, j - 1, extra);
      }
    }
  }

  /** Number of lines that are not blank once normalized. */
  function NonBlankCount(lines: seq<string>): nat {
    if lines == [] then 0
    else (if Normalize(lines[0]) == [] then 0 else 1) + NonBlankCount(lines[1..])
  }

  /** Inside the struct and before its end, every non-blank line yields
      exactly one entry: a field group or an enum capture. */
  lemma {:induction false} OneEntryPerBodyLine(lines: seq<string>, m: HeaderModel)
    requires forall i :: 0 <= i < |lines| ==> !EndsBody(Normalize(lines[i]))
    ensures ScanFrom(lines, m, true).Success? ==>
      var m' := ScanFrom(lines, m, true).value;
      |m'.structs| + |m'.enumClasses| == |m.structs| + |m.enumClasses| + NonBlankCount(lines)
    decreases |lines|
  {
    if lines != [] {
      forall i | 0 <= i < |lines| - 1 ensures !EndsBody(Normalize(lines[1..][i])) {
        assert lines[1..][i] == lines[i + 1];
      }
      assert !EndsBody(Normalize(lines[0]));
      var step := StepLine(Normalize(lines[0]), m, true);
      if step.Next? {
        OneEntryPerBodyLine(lines[1..], step.model);
      }
    }
  }

  /** The field group a body line adds: the `clean_struct` group of a
      non-blank line that is not an `enum class` line and that it accepts. */
  function FieldOf(line: string): seq<FieldGroup> {
    var l := Normalize(line);
    if l != [] && MatchEnumClass(l).None? && Cleaned(l).Success? then [Cleaned(l).value] else []
  }

  /** The capture a body line adds when it is an `enum class` line. */
  function EnumOf(line: string): seq<EnumCapture> {
    var l := Normalize(line);
    if l != [] && MatchEnumClass(l).Some? then [MatchEnumClass(l).value] else []
  }

  /** The field groups of the body lines `lines`, in order. */
  function BodyFields(lines: seq<string>): seq<FieldGroup> {
    if lines == [] then [] else FieldOf(lines[0]) + BodyFields(lines[1..])
  }

  /** The enum captures of the body lines `lines`, in order. */
  function BodyEnums(lines: seq<string>): seq<EnumCapture> {
    if lines == [] then [] else EnumOf(lines[0]) + BodyEnums(lines[1..])
  }

  /** A body line that does not end the body never stops the scan; when
      it goes on, it adds its field group or its capture and nothing else. */
  lemma BodyStep(line: string, m: HeaderModel)
    requires !EndsBody(Normalize(line))
    ensures !StepLine(Normalize(line), m, true).Stop?
    ensures StepLine(Normalize(line), m, true).Next? ==>
      StepLine(Normalize(line), m, true) ==
        Next(m.(structs := m.structs + FieldOf(line), enumClasses := m.enumClasses + EnumOf(line)), true)
  {
    assert m.structs + [] == m.structs && m.enumClasses + [] == m.enumClasses;
  }

  /** A step that goes on leaves the rest of the scan to the next lines. */
  lemma ScanStepNext(lines: seq<string>, m: HeaderModel, inStruct: bool, m': HeaderModel, inStruct': bool)
    requires lines != [] && StepLine(Normalize(lines[0]), m, inStruct) == Next(m', inStruct')
    ensures ScanFrom(lines, m, inStruct) == ScanFrom(lines[1..], m', inStruct')
  {
  }

  /** A step that neither goes on nor stops makes the scan fail. */
  lemma ScanStepAbort(lines: seq<string>, m: HeaderModel, inStruct: bool)
    requires lines != [] && StepLine(Normalize(lines[0]), m, inStruct).Abort?
    ensures ScanFrom(lines, m, inStruct).Failure?
  {
  }

  /** Appending to the fields and enums twice is appending the
      concatenations once. */
  lemma AppendParts(m: HeaderModel, f0: seq<FieldGroup>, e0: seq<EnumCapture>,
                    fs: seq<FieldGroup>, es: seq<EnumCapture>)
    ensures var m1 := m.(structs := m.structs + f0, enumClasses := m.enumClasses + e0);
      m1.(structs := m1.structs + fs, enumClasses := m1.enumClasses + es) ==
        m.(structs := m.structs + (f0 + fs), enumClasses := m.enumClasses + (e0 + es))
  {
    assert m.structs + f0 + fs == m.structs + (f0 + fs);
    assert m.enumClasses + e0 + es == m.enumClasses + (e0 + es);
  }

  /** Inside the struct and before its end, the scan adds exactly the
      `clean_struct` group of every field line and the capture of every
      `enum class` line, each in line order. */
  lemma {:induction false} BodyContents(lines: seq<string>, m: HeaderModel)
    requires forall i :: 0 <= i < |lines| ==> !EndsBody(Normalize(lines[i]))
    ensures ScanFrom(lines, m, true).Success? ==>
      ScanFrom(lines, m, true).value ==
        m.(structs := m.structs + BodyFields(lines), enumClasses := m.enumClasses + BodyEnums(lines))
    decreases |lines|
  {
    if lines == [] {
      assert m.structs + [] == m.structs && m.enumClasses + [] == m.enumClasses;
    } else {
      forall i | 0 <= i < |lines| - 1 ensures !EndsBody(Normalize(lines[1..][i])) {
        assert lines[1..][i] == lines[i + 1];
      }
      BodyStep(lines[0], m);
      var f0, e0 := FieldOf(lines[0]), EnumOf(lines[0]);
      var m1 := m.(structs := m.structs + f0, enumClasses := m.enumClasses + e0);
      if StepLine(Normalize(lines[0]), m, true).Next? {
        ScanStepNext(lines, m, true, m1, true);
        BodyContents(lines[1..], m1);
        AppendParts(m, f0, e0, BodyFields(lines[1..]), BodyEnums(lines[1..]));
      } else {
        ScanStepAbort(lines, m, true);
      }
    }
  }

  /** The name a `namespace X` line declares, if it is one. */
  function NamespaceOf(line: string): seq<string> {
    match MatchKeyword(NamespaceKeyword, Normalize(line))
    case Some(n) => [n]
    case None => []
  }

  /** The names of the `namespace X` lines among `lines`, in order. */
  function NamespaceNames(lines: seq<string>): seq<string> {
    if lines == [] then [] else NamespaceOf(lines[0]) + NamespaceNames(lines[1..])
  }

  /** Outside the struct, a line that does not open it adds at most its namespace. */
  lemma OutsideStep(line: string, m: HeaderModel)
    requires !OpensStruct(Normalize(line))
    ensures StepLine(Normalize(line), m, false) == Next(m.(namespaces := m.namespaces + NamespaceOf(line)), false)
  {
    if MatchKeyword(NamespaceKeyword, Normalize(line)).None? {
      assert m.(namespaces := m.namespaces + []) == m;
    }
  }

  /** Outside the struct, the scan passes over a line that does not open it,
      adding at most that line's namespace. */
  lemma ScanOutsideNext(lines: seq<string>, m: HeaderModel, r: Result<HeaderModel>)
    requires lines != [] && !OpensStruct(Normalize(lines[0]))
    requires ScanFrom(lines, m, false) == r
    ensures r == ScanFrom(lines[1..], m.(namespaces := m.namespaces + NamespaceOf(lines[0])), false)
  {
    OutsideStep(lines[0], m);
  }

  /** Appending the first line's namespaces and then the rest's is
      appending those of all the lines. The ensures keeps the two nested
      updates because that is the term `NoStructLine` and `FirstStructLine`
      obtain from one step followed by the recursive call. */
  lemma NamespacesAppend(lines: seq<string>, m: HeaderModel, first: seq<string>, others: seq<string>)
    requires lines != []
    requires first == NamespaceOf(lines[0]) && others == NamespaceNames(lines[1..])
    ensures m.(namespaces := m.namespaces + first).(namespaces := m.namespaces + first + others) ==
      m.(namespaces := m.namespaces + NamespaceNames(lines))
  {
  }

  /** Outside a struct, a header without a `struct X` line yields its
      namespaces in line order and nothing else, without error. */
  lemma {:induction false} NoStructLine(lines: seq<string>, m: HeaderModel)
    requires forall i :: 0 <= i < |lines| ==> !OpensStruct(Normalize(lines[i]))
    ensures ScanFrom(lines, m, false) == Success(m.(namespaces := m.namespaces + NamespaceNames(lines)))
    decreases |lines|
  {
    if lines != [] {
      forall i | 0 <= i < |lines| - 1 ensures !OpensStruct(Normalize(lines[1..][i])) {
        assert lines[1..][i] == lines[i + 1];
      }
      var m' := m.(namespaces := m.namespaces + NamespaceOf(lines[0]));
      NoStructLine(lines[1..], m');
      ScanOutsideNext(lines, m, ScanFrom(lines, m, false));
      NamespacesAppend(lines, m, NamespaceOf(lines[0]), NamespaceNames(lines[1..]));
    } else {
      assert m.(namespaces := m.namespaces + []) == m;
    }
  }

  /** A header with no struct line gives an empty struct name and no body. */
  lemma NoStructGivesEmptyModel(lines: seq<string>)
    requires forall i :: 0 <= i < |lines| ==> !OpensStruct(Normalize(lines[i]))
    ensures Scan(lines) == Success(HeaderModel(NamespaceNames(lines), [], "", []))
  {
    NoStructLine(lines, EmptyModel);
    EmptyModelNamespaces(EmptyModel, NamespaceNames(lines));
  }

  lemma EmptyModelNamespaces(m: HeaderModel, names: seq<string>)
    requires m == EmptyModel
    ensures m.(namespaces := m.namespaces + names) == HeaderModel(names, [], "", [])
  {
    assert [] + names == names;
  }

  /** The first `struct X` line sets the struct name and switches to the
      body: what comes before it only contributes namespaces. */
  lemma {:induction false} FirstStructLine(lines: seq<string>, m: HeaderModel, k: nat)
    requires k < |lines| && OpensStruct(Normalize(lines[k]))
    requires forall i :: 0 <= i < k ==> !OpensStruct(Normalize(lines[i]))
    ensures ScanFrom(lines, m, false) ==
      ScanFrom(lines[k + 1..],
               m.(namespaces := m.namespaces + NamespaceNames(lines[..k]),
                  classname := MatchKeyword(StructKeyword, Normalize(lines[k])).value),
               true)
    decreases k
  {
    if k == 0 {
      var line := Normalize(lines[0]);
      assert lines[..0] == [];
      assert MatchKeyword(NamespaceKeyword, line).None? by {
        assert line[0] == 's';
      }
      assert m.namespaces + [] == m.namespaces;
    } else {
      assert lines[1..][k - 1..][1..] == lines[k + 1..];
      assert lines[1..][..k - 1] == lines[..k][1..];
      assert lines[1..][k - 1] == lines[k];
      forall i | 0 <= i < k - 1 ensures !OpensStruct(Normalize(lines[1..][i])) {
        assert lines[1..][i] == lines[i + 1];
      }
      var m' := m.(namespaces := m.namespaces + NamespaceOf(lines[0]));
      FirstStructLine(lines[1..], m', k - 1);
      ScanOutsideNext(lines, m, ScanFrom(lines, m, false));
      NamespacesAppend(lines[..k], m, NamespaceOf(lines[0]), NamespaceNames(lines[..k][1..]));
    }
  }
}
