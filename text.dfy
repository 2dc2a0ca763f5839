/**
 * The few Python string operations the generator relies on, restricted to
 * ASCII: `str.isspace`, `\w`, `str.strip`, `str.split()` (no separator),
 * `str.find`, `sep.join` and `str.upper`.
 */
module Text {

  /** Python's `str.isspace` on ASCII: tab, newline, vertical tab, form feed,
      carriage return, the four separators 0x1C..0x1F and the blank. */
  predicate IsSpace(c: char) {
    c == ' ' || ('\t' <= c <= '\r') || ('\U{1C}' <= c <= '\U{1F}')
  }

  /** The regex class `\w` on ASCII. */
  predicate IsWordChar(c: char) {
    ('a' <= c <= 'z') || ('A' <= c <= 'Z') || ('0' <= c <= '9') || c == '_'
  }

  predicate AllSpace(s: string) {
    forall i :: 0 <= i < |s| ==> IsSpace(s[i])
  }

  predicate NoSpace(s: string) {
    forall i :: 0 <= i < |s| ==> !IsSpace(s[i])
  }

  predicate AllWord(s: string) {
    forall i :: 0 <= i < |s| ==> IsWordChar(s[i])
  }

  /** Index of the first non-whitespace character at or after `i`, or `|s|`. */
  function SkipSpace(s: string, i: nat): (k: nat)
    requires i <= |s|
    ensures i <= k <= |s|
    ensures forall j :: i <= j < k ==> IsSpace(s[j])
    ensures k < |s| ==> !IsSpace(s[k])
    decreases |s| - i
  {
    if i < |s| && IsSpace(s[i]) then SkipSpace(s, i + 1) else i
  }

  /** Index just past the last non-whitespace character at or after `lo`, or `lo`. */
  function SkipSpaceBack(s: string, lo: nat, j: nat): (k: nat)
    requires lo <= j <= |s|
    ensures lo <= k <= j
    ensures forall i :: k <= i < j ==> IsSpace(s[i])
    ensures k > lo ==> !IsSpace(s[k - 1])
    decreases j
  {
    if j > lo && IsSpace(s[j - 1]) then SkipSpaceBack(s, lo, j - 1) else j
  }

  /** Where `s.strip()` starts in `s`. */
  function StripStart(s: string): (k: nat)
    ensures k <= |s|
  {
    SkipSpace(s, 0)
  }

  /** Python's `s.strip()`: the infix of `s` left after removing whitespace
      at both ends. */
  function Strip(s: string): (r: string)
    ensures StripStart(s) + |r| <= |s| && r == s[StripStart(s)..StripStart(s) + |r|]
    ensures forall i :: 0 <= i < |s| && !(StripStart(s) <= i < StripStart(s) + |r|) ==> IsSpace(s[i])
    ensures r == [] || (!IsSpace(r[0]) && !IsSpace(r[|r| - 1]))
    ensures r == [] <==> AllSpace(s)
  {
    var lo := SkipSpace(s, 0);
    var hi := SkipSpaceBack(s, lo, |s|);
    assert lo < |s| ==> hi > lo;
    s[lo..hi]
  }

  /** Length of the run of non-whitespace characters that starts `s`. */
  function TokenLen(s: string): (n: nat)
    ensures n <= |s| && NoSpace(s[..n])
    ensures n == |s| || IsSpace(s[n])
  {
    if s == [] || IsSpace(s[0]) then 0 else 1 + TokenLen(s[1..])
  }

  /** Python's `s.split()` with no separator: the maximal runs of
      non-whitespace characters, left to right. */
  function Split(s: string): (r: seq<string>)
    ensures forall i :: 0 <= i < |r| ==> r[i] != [] && NoSpace(r[i])
    decreases |s|
  {
    if s == [] then []
    else if IsSpace(s[0]) then Split(s[1..])
    else
      var n := TokenLen(s);
      [s[..n]] + Split(s[n..])
  }

  /** A blank in front changes nothing to the split. */
  lemma SplitSpace(s: string)
    requires s != [] && IsSpace(s[0])
    ensures Split(s) == Split(s[1..])
  {
  }

  /** A token followed by whitespace or the end of the text is split off whole. */
  lemma SplitToken(t: string, rest: string)
    requires t != [] && NoSpace(t)
    requires rest == [] || IsSpace(rest[0])
    ensures Split(t + rest) == [t] + Split(rest)
  {
    var s := t + rest;
    TokenLenOf(t, rest);
    assert s[..|t|] == t && s[|t|..] == rest;
  }

  lemma {:induction false} TokenLenOf(t: string, rest: string)
    requires NoSpace(t)
    requires rest == [] || IsSpace(rest[0])
    ensures TokenLen(t + rest) == |t|
    decreases |t|
  {
    if t != [] {
      assert (t + rest)[1..] == t[1..] + rest;
      TokenLenOf(t[1..], rest);
    } else {
      assert t + rest == rest;
    }
  }

  /** The non-whitespace characters of `s`, in order. */
  function NonSpace(s: string): string {
    if s == [] then []
    else (if IsSpace(s[0]) then [] else [s[0]]) + NonSpace(s[1..])
  }

  lemma {:induction false} NonSpaceAppend(a: string, b: string)
    ensures NonSpace(a + b) == NonSpace(a) + NonSpace(b)
    decreases |a|
  {
    if a != [] {
      assert (a + b)[1..] == a[1..] + b;
      NonSpaceAppend(a[1..], b);
    } else {
      assert a + b == b;
    }
  }

  lemma {:induction false} NonSpaceOfToken(t: string)
    requires NoSpace(t)
    ensures NonSpace(t) == t
    decreases |t|
  {
    if t != [] {
      NonSpaceOfToken(t[1..]);
      assert t == [t[0]] + t[1..];
    }
  }

  /** Splitting loses exactly the whitespace: the tokens put back together
      are the non-whitespace characters of the input, in order. */
  lemma {:induction false} SplitKeepsNonSpace(s: string)
    ensures Join(Split(s), "") == NonSpace(s)
    decreases |s|
  {
    if s == [] {
    } else if IsSpace(s[0]) {
      SplitKeepsNonSpace(s[1..]);
    } else {
      var n := TokenLen(s);
      SplitKeepsNonSpace(s[n..]);
      assert s == s[..n] + s[n..];
      NonSpaceAppend(s[..n], s[n..]);
      NonSpaceOfToken(s[..n]);
      JoinNoSeparator(s[..n], Split(s[n..]));
    }
  }

  /** Joining with no separator puts the first piece before the rest. */
  lemma JoinNoSeparator(t: string, rest: seq<string>)
    ensures Join([t] + rest, "") == t + Join(rest, "")
  {
    if rest == [] {
      assert t + [] == t;
    } else {
      assert ([t] + rest)[1..] == rest;
    }
  }

  /** `s.split()` is empty exactly when `s` is blank. */
  lemma {:induction false} SplitEmptyIff(s: string)
    ensures Split(s) == [] <==> AllSpace(s)
    decreases |s|
  {
    if s != [] && IsSpace(s[0]) {
      SplitEmptyIff(s[1..]);
      if AllSpace(s[1..]) {
        forall i | 1 <= i < |s| ensures IsSpace(s[i]) {
          assert s[i] == s[1..][i - 1];
        }
      }
    }
  }

  /** Leading whitespace changes nothing to the split. */
  lemma {:induction false} SplitDropSpaces(s: string, i: nat)
    requires i <= |s|
    requires forall j :: 0 <= j < i ==> IsSpace(s[j])
    ensures Split(s) == Split(s[i..])
    decreases i
  {
    if i > 0 {
      SplitSpace(s);
      assert s[1..][i - 1..] == s[i..];
      SplitDropSpaces(s[1..], i - 1);
    }
  }

  /** Trailing whitespace changes nothing to the split. */
  lemma {:induction false} SplitTrailingSpaces(t: string, sp: string)
    requires AllSpace(sp)
    ensures Split(t + sp) == Split(t)
    decreases |t|
  {
    if t == [] {
      assert t + sp == sp;
      SplitEmptyIff(sp);
    } else if IsSpace(t[0]) {
      assert (t + sp)[1..] == t[1..] + sp;
      SplitTrailingSpaces(t[1..], sp);
    } else {
      var n := TokenLen(t);
      if n < |t| {
        assert t + sp == t[..n] + (t[n..] + sp);
        TokenLenOf(t[..n], t[n..] + sp);
        assert (t + sp)[..n] == t[..n] && (t + sp)[n..] == t[n..] + sp;
        SplitTrailingSpaces(t[n..], sp);
      } else {
        TokenLenOf(t, sp);
        assert (t + sp)[..n] == t && (t + sp)[n..] == sp;
        SplitEmptyIff(sp);
        assert t[..n] == t && t[n..] == [];
      }
    }
  }

  /** `s.strip().split() == s.split()`. */
  lemma SplitStrip(s: string)
    ensures Split(Strip(s)) == Split(s)
  {
    var lo, r := StripStart(s), Strip(s);
    var tail := s[lo + |r|..];
    forall i | 0 <= i < |tail| ensures IsSpace(tail[i]) {
      assert tail[i] == s[lo + |r| + i];
    }
    assert s[lo..] == r + tail;
    SplitInfix(s, lo, r, tail);
  }

  /** An infix with only whitespace around it splits like the whole. */
  lemma SplitInfix(s: string, lo: nat, r: string, tail: string)
    requires lo <= |s| && s[lo..] == r + tail
    requires forall j :: 0 <= j < lo ==> IsSpace(s[j])
    requires AllSpace(tail)
    ensures Split(r) == Split(s)
  {
    SplitDropSpaces(s, lo);
    SplitTrailingSpaces(r, tail);
  }

  /** A blank on either side changes nothing to the split. */
  lemma SplitPadded(s: string)
    ensures Split(" " + s + " ") == Split(s)
  {
    SplitSpace(" " + s + " ");
    assert (" " + s + " ")[1..] == s + " ";
    SplitTrailingSpaces(s, " ");
  }

  /** Python's `sep.join(parts)`. */
  function Join(parts: seq<string>, sep: string): string {
    if parts == [] then []
    else if |parts| == 1 then parts[0]
    else parts[0] + sep + Join(parts[1..], sep)
  }

  /** Splitting undoes joining with a blank: `' '.join(ts).split() == ts`
      when every token is non-empty and holds no whitespace. */
  lemma {:induction false} SplitJoin(ts: seq<string>)
    requires forall i :: 0 <= i < |ts| ==> ts[i] != [] && NoSpace(ts[i])
    ensures Split(Join(ts, " ")) == ts
    decreases |ts|
  {
    if |ts| == 1 {
      SplitToken(ts[0], "");
      assert ts[0] + "" == ts[0];
    } else if |ts| > 1 {
      var rest := Join(ts[1..], " ");
      SplitJoin(ts[1..]);
      SplitSpace(" " + rest);
      assert (" " + rest)[1..] == rest;
      SplitToken(ts[0], " " + rest);
      assert Join(ts, " ") == ts[0] + (" " + rest);
      assert [ts[0]] + ts[1..] == ts;
    }
  }

  /** A join of pieces that are all non-empty is empty only when there is no piece. */
  lemma JoinEmptyIff(parts: seq<string>, sep: string)
    requires forall i :: 0 <= i < |parts| ==> parts[i] != []
    ensures Join(parts, sep) == [] <==> parts == []
  {
    if |parts| > 1 {
      assert |Join(parts, sep)| >= |parts[0]|;
    }
  }

  /** First index of `c` in `s`, or `|s|` when there is none. */
  function IndexOfChar(s: string, c: char): (k: nat)
    ensures k <= |s| && c !in s[..k]
    ensures forall i :: 0 <= i < k ==> s[i] != c
    ensures k < |s| ==> s[k] == c
  {
    if s == [] || s[0] == c then 0 else 1 + IndexOfChar(s[1..], c)
  }

  predicate CommentAt(s: string, i: int) {
    0 <= i && i + 1 < |s| && s[i] == '/' && s[i + 1] == '/'
  }

  /** Python's `s.find('//')`, with `|s|` standing for -1. */
  function CommentStart(s: string): (k: nat)
    ensures k <= |s|
    ensures k < |s| ==> CommentAt(s, k)
    ensures forall i :: 0 <= i < k ==> !CommentAt(s, i)
  {
    if |s| < 2 then |s|
    else if s[0] == '/' && s[1] == '/' then 0
    else
      var k := 1 + CommentStart(s[1..]);
      assert forall i :: 1 <= i < k ==> (CommentAt(s, i) <==> CommentAt(s[1..], i - 1));
      k
  }

  /** Python's `str.upper` on ASCII. */
  function Upper(s: string): (r: string)
    ensures |r| == |s|
    ensures forall i :: 0 <= i < |s| ==>
      r[i] == if 'a' <= s[i] <= 'z' then (s[i] as int - 32) as char else s[i]
  {
    if s == [] then [] else
      [if 'a' <= s[0] <= 'z' then (s[0] as int - 32) as char else s[0]] + Upper(s[1..])
  }
}
