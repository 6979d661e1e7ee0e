/**
 * The parts of Go's `strings` package that the session manager relies on,
 * over Dafny strings. Lower-casing is ASCII only.
 */
module Text {

  /** Go's unicode.IsSpace: the white space that strings.Fields and strings.TrimSpace skip. */
  predicate IsSpace(c: char)
  {
    || c == ' ' || c == '\t' || c == '\n' || c == '\U{0B}' || c == '\U{0C}' || c == '\r'
    || c == '\U{85}' || c == '\U{A0}' || c == '\U{1680}'
    || ('\U{2000}' <= c <= '\U{200A}')
    || c == '\U{2028}' || c == '\U{2029}' || c == '\U{202F}' || c == '\U{205F}' || c == '\U{3000}'
  }

  /** A field as strings.Fields produces it: non-empty, without white space. */
  predicate IsWord(w: string)
  {
    w != [] && forall i :: 0 <= i < |w| ==> !IsSpace(w[i])
  }

  /** The length of the run of white space that starts s. */
  function SpaceRun(s: string): (n: nat)
    ensures n <= |s|
    ensures forall k :: 0 <= k < n ==> IsSpace(s[k])
    ensures n < |s| ==> !IsSpace(s[n])
  {
    if s != [] && IsSpace(s[0]) then 1 + SpaceRun(s[1..]) else 0
  }

  /** Drops the leading white space. */
  function TrimLeft(s: string): (r: string)
  {
    s[SpaceRun(s)..]
  }

  /** Drops the trailing white space. */
  function TrimRight(s: string): (r: string)
    ensures |r| <= |s| && r == s[..|r|]
    ensures r != [] ==> !IsSpace(r[|r| - 1])
    ensures forall k :: |r| <= k < |s| ==> IsSpace(s[k])
  {
    if s != [] && IsSpace(s[|s| - 1]) then TrimRight(s[..|s| - 1]) else s
  }

  /** strings.TrimSpace. */
  function TrimSpace(s: string): (r: string)
    ensures r != [] ==> !IsSpace(r[0]) && !IsSpace(r[|r| - 1])
  {
    TrimRight(TrimLeft(s))
  }

  /** The length of the run of non-space characters that starts s. */
  function WordLength(s: string): (n: nat)
    ensures n <= |s|
    ensures forall k :: 0 <= k < n ==> !IsSpace(s[k])
    ensures n < |s| ==> IsSpace(s[n])
  {
    if s == [] || IsSpace(s[0]) then 0 else 1 + WordLength(s[1..])
  }

  /** strings.Fields: the maximal runs of non-space characters, in order. */
  function Fields(s: string): (r: seq<string>)
    ensures forall i :: 0 <= i < |r| ==> IsWord(r[i])
    decreases |s|
  {
    var t := TrimLeft(s);
    if t == [] then []
    else
      var n := WordLength(t);
      [t[..n]] + Fields(t[n..])
  }

  /** strings.Join. */
  function Join(parts: seq<string>, sep: string): (r: string)
  {
    if parts == [] then ""
    else if |parts| == 1 then parts[0]
    else parts[0] + sep + Join(parts[1..], sep)
  }

  /** strings.HasPrefix. */
  predicate HasPrefix(s: string, prefix: string)
  {
    |prefix| <= |s| && s[..|prefix|] == prefix
  }

  /** strings.Contains: `t` occurs in `s` at some offset. */
  predicate Contains(s: string, t: string)
    decreases |s|
  {
    HasPrefix(s, t) || (s != [] && Contains(s[1..], t))
  }

  function LowerChar(c: char): char
  {
    if 'A' <= c <= 'Z' then (c as int + 32) as char else c
  }

  /** strings.ToLower, restricted to ASCII letters. */
  function ToLower(s: string): (r: string)
    ensures |r| == |s|
    ensures forall i :: 0 <= i < |s| ==> r[i] == LowerChar(s[i])
  {
    if s == [] then [] else [LowerChar(s[0])] + ToLower(s[1..])
  }

  /** strings.Split(s, string(sep)): the pieces between separators; there is always one more piece than separators. */
  function Split(s: string, sep: char): (r: seq<string>)
    ensures |r| >= 1
    ensures forall i :: 0 <= i < |r| ==> sep !in r[i]
  {
    if s == [] then [""]
    else
      var rest := Split(s[1..], sep);
      if s[0] == sep then [""] + rest
      else [[s[0]] + rest[0]] + rest[1..]
  }

  /** Splitting on a separator and joining the pieces with it gives back the text. */
  lemma {:induction false} SplitJoin(s: string, sep: char)
    ensures Join(Split(s, sep), [sep]) == s
  {
    if s != [] {
      var rest := Split(s[1..], sep);
      SplitJoin(s[1..], sep);
      if s[0] == sep {
        assert Split(s, sep)[1..] == rest;
      } else {
        JoinConsHead(s[0], rest, [sep]);
      }
      assert s == [s[0]] + s[1..];
    }
  }

  /** A character put in front of the first part comes first in the joined text. */
  lemma JoinConsHead(c: char, parts: seq<string>, sep: string)
    requires parts != []
    ensures Join([[c] + parts[0]] + parts[1..], sep) == [c] + Join(parts, sep)
  {
    var r := [[c] + parts[0]] + parts[1..];
    assert r[0] == [c] + parts[0] && r[1..] == parts[1..];
    if |parts| > 1 {
      assert Join(r, sep) == ([c] + parts[0]) + sep + Join(parts[1..], sep);
    }
  }

  /** Leading white space does not change the fields. */
  lemma FieldsSkipsSpace(s: string)
    requires s != [] && IsSpace(s[0])
    ensures Fields(s) == Fields(s[1..])
  {
    assert TrimLeft(s) == TrimLeft(s[1..]);
  }

  /** Re-splitting words joined with single spaces gives the words back. */
  lemma {:induction false} FieldsOfJoin(ws: seq<string>)
    requires forall i :: 0 <= i < |ws| ==> IsWord(ws[i])
    ensures Fields(Join(ws, " ")) == ws
  {
    if |ws| == 1 {
      FieldsOfWordThen(ws[0], "");
      assert ws[0] + "" == ws[0];
    } else if |ws| > 1 {
      FieldsOfJoin(ws[1..]);
      FieldsOfJoinStep(ws[0], ws[1..]);
      assert [ws[0]] + ws[1..] == ws;
    }
  }

  lemma FieldsOfJoinStep(w: string, ws: seq<string>)
    requires IsWord(w) && ws != []
    requires Fields(Join(ws, " ")) == ws
    ensures Fields(Join([w] + ws, " ")) == [w] + ws
  {
    var rest := Join(ws, " ");
    var tail := " " + rest;
    assert ([w] + ws)[1..] == ws;
    assert Join([w] + ws, " ") == w + tail;
    FieldsOfWordThen(w, tail);
    FieldsSkipsSpace(tail);
    assert tail[1..] == rest;
  }

  /** A word followed by white space (or nothing) is the first field. */
  lemma FieldsOfWordThen(w: string, tail: string)
    requires IsWord(w)
    requires tail == [] || IsSpace(tail[0])
    ensures Fields(w + tail) == [w] + Fields(tail)
  {
    var s := w + tail;
    assert TrimLeft(s) == s;
    WordLengthOfWord(w, tail);
    assert s[..|w|] == w;
    assert s[|w|..] == tail;
  }

  lemma {:induction false} WordLengthOfWord(w: string, tail: string)
    requires forall i :: 0 <= i < |w| ==> !IsSpace(w[i])
    requires tail == [] || IsSpace(tail[0])
    ensures WordLength(w + tail) == |w|
  {
    if w == [] {
      assert w + tail == tail;
    } else {
      assert (w + tail)[1..] == w[1..] + tail;
      WordLengthOfWord(w[1..], tail);
    }
  }
}
