/** The characters of an ADC message: escaping, and how a parsed line falls into words. */
module AdcText {
  /** Characters are bytes. */
  type Text = seq<int>

  const NEWLINE := 10
  const SPACE := 32
  const PIPE := 124
  const BACKSLASH := 92
  const LETTER_N := 110
  const LETTER_S := 115

  // ---- escaping ----

  predicate Special(c: int) { c == SPACE || c == NEWLINE || c == BACKSLASH }

  function EscapedChar(c: int, older: bool): Text {
    if !Special(c) then [c]
    else [BACKSLASH, if older || c == BACKSLASH then c else if c == SPACE then LETTER_S else LETTER_N]
  }

  function Escaped(s: Text, older: bool): Text
    decreases |s|
  {
    if s == [] then [] else EscapedChar(s[0], older) + Escaped(s[1..], older)
  }

  /** What escape makes of each character: in the newer form "\\s" for ' ', "\\n" for a newline and "\\\\" for a
      backslash, in the older one a backslash before each of them. */
  function Spelled(s: Text, older: bool): Text
    decreases |s|
  {
    if s == [] then []
    else
      var c := s[0];
      (if c == ' ' as int then ['\\' as int, if older then ' ' as int else 's' as int]
       else if c == '\n' as int then ['\\' as int, if older then '\n' as int else 'n' as int]
       else if c == '\\' as int then ['\\' as int, '\\' as int]
       else [c]) + Spelled(s[1..], older)
  }

  lemma {:induction false} EscapedSpelled(s: Text, older: bool)
    ensures Escaped(s, older) == Spelled(s, older)
    decreases |s|
  {
    if s != [] { EscapedSpelled(s[1..], older); }
  }

  ghost predicate Plain(s: Text) { forall i {:trigger s[i]} :: 0 <= i < |s| ==> !Special(s[i]) }

  lemma {:induction false} EscapedPlain(s: Text, tail: Text, older: bool)
    requires Plain(s)
    ensures Escaped(s + tail, older) == s + Escaped(tail, older)
    decreases |s|
  {
    if s == [] {
      assert s + tail == tail;
    } else {
      assert (s + tail)[1..] == s[1..] + tail;
      EscapedPlain(s[1..], tail, older);
      assert [s[0]] + (s[1..] + Escaped(tail, older)) == s + Escaped(tail, older);
    }
  }

  /** find_first_of. */
  method FindSpecial(s: Text, i: nat) returns (j: nat)
    requires i <= |s|
    ensures i <= j <= |s| && Plain(s[i..j]) && (j < |s| ==> Special(s[j]))
  {
    j := i;
    while j < |s| && !Special(s[j])
      invariant i <= j <= |s| && Plain(s[i..j])
    {
      assert s[i..j + 1] == s[i..j] + [s[j]];
      j := j + 1;
    }
  }

  /** One special character dealt with: the text before i is final. */
  lemma EscapeStep(s: Text, i: nat, j: nat, older: bool, t: Text)
    requires i <= j < |s| && Plain(s[i..j]) && Special(s[j]) && t == s[..j] + EscapedChar(s[j], older) + s[j + 1..]
    ensures t[..j + 2] + Escaped(t[j + 2..], older) == s[..i] + Escaped(s[i..], older)
  {
    var e, z := EscapedChar(s[j], older), s[j + 1..];
    assert s[i..] == s[i..j] + s[j..];
    EscapedPlain(s[i..j], s[j..], older);
    assert s[j..][1..] == z;
    assert t[..j + 2] == s[..j] + e && t[j + 2..] == z;
    assert s[..j] == s[..i] + s[i..j];
    EscapeSplice(s[..i], s[i..j], e, Escaped(z, older));
  }

  lemma EscapeSplice(a: Text, b: Text, c: Text, d: Text)
    ensures ((a + b) + c) + d == a + (b + (c + d))
  {
  }

  lemma AllPlain(s: Text, i: nat, older: bool)
    requires i <= |s| && Plain(s[i..|s|])
    ensures s[..i] + Escaped(s[i..], older) == s
  {
    assert s[i..|s|] == s[i..] && s[i..] + [] == s[i..] && s[..i] + s[i..] == s;
    EscapedPlain(s[i..], [], older);
  }

  /** AdcCommand::escape: edits a copy of the text in place. */
  method Escape(str: Text, older: bool) returns (tmp: Text)
    ensures tmp == Escaped(str, older) == Spelled(str, older)
  {
    EscapedSpelled(str, older);
    tmp := str;
    var i := 0;
    while true
      invariant 0 <= i <= |tmp| && tmp[..i] + Escaped(tmp[i..], older) == Escaped(str, older)
      decreases |tmp| - i
    {
      var j := FindSpecial(tmp, i);
      ghost var was, from := tmp, i;
      if j == |tmp| {
        AllPlain(tmp, i, older);
        break;
      }
      if older {
        tmp := tmp[..j] + [BACKSLASH] + tmp[j..];
        assert tmp == was[..j] + EscapedChar(was[j], older) + was[j + 1..];
      } else if tmp[j] == SPACE {
        tmp := tmp[..j] + [BACKSLASH, LETTER_S] + tmp[j + 1..];
      } else if tmp[j] == NEWLINE {
        tmp := tmp[..j] + [BACKSLASH, LETTER_N] + tmp[j + 1..];
      } else {
        tmp := tmp[..j] + [BACKSLASH, BACKSLASH] + tmp[j + 1..];
      }
      EscapeStep(was, from, j, older, tmp);
      i := j + 2;
    }
  }

  ghost predicate Without(s: Text, c: int) { forall i {:trigger s[i]} :: 0 <= i < |s| ==> s[i] != c }

  /** The newer escaping leaves no space and no newline. */
  lemma {:induction false} EscapedHasNoBreaks(s: Text)
    ensures Without(Escaped(s, false), SPACE) && Without(Escaped(s, false), NEWLINE)
    decreases |s|
  {
    if s != [] { EscapedHasNoBreaks(s[1..]); }
  }

  // ---- words ----

  /** The words ended by a space, the one after them, and whether a bad escape came before the end. */
  datatype Words = Words(done: seq<Text>, last: Text, bad: bool)

  /** The character that an escape stands for, or -1. */
  function Unescaped(c: int, nmdc: bool): int {
    if c == LETTER_S then SPACE
    else if c == LETTER_N then NEWLINE
    else if c == BACKSLASH then BACKSLASH
    else if c == SPACE && nmdc then SPACE
    else -1
  }

  /** What the escapes are read as. */
  lemma UnescapesAre(c: int, nmdc: bool)
    ensures Unescaped(c, nmdc) ==
      if c == 's' as int || (c == ' ' as int && nmdc) then ' ' as int
      else if c == 'n' as int then '\n' as int
      else if c == '\\' as int then '\\' as int
      else -1
  {
  }

  /** The words of a text, of which the first starts with cur. */
  function Scan(s: Text, nmdc: bool, cur: Text): Words
    decreases |s|
  {
    if s == [] then Words([], cur, false)
    else if s[0] == BACKSLASH then
      if |s| == 1 || Unescaped(s[1], nmdc) == -1 then Words([], cur, true)
      else Scan(s[2..], nmdc, cur + [Unescaped(s[1], nmdc)])
    else if s[0] == SPACE then
      var w := Scan(s[1..], nmdc, []);
      w.(done := [cur] + w.done)
    else Scan(s[1..], nmdc, cur + [s[0]])
  }

  /** r is read as part w of a word. */
  ghost predicate ReadsAs(r: Text, w: Text, nmdc: bool) {
    forall rest: Text, cur: Text {:trigger Scan(r + rest, nmdc, cur)} ::
      Scan(r + rest, nmdc, cur) == Scan(rest, nmdc, cur + w)
  }

  /** An escaped text reads as the text; the older escaping only if there is no newline in it. */
  lemma {:induction false} ScanEscaped(p: Text, nmdc: bool, rest: Text, cur: Text)
    requires nmdc ==> Without(p, NEWLINE)
    ensures Scan(Escaped(p, nmdc) + rest, nmdc, cur) == Scan(rest, nmdc, cur + p)
    decreases |p|
  {
    if p == [] {
      assert Escaped(p, nmdc) + rest == rest && cur + p == cur;
    } else {
      var tail := Escaped(p[1..], nmdc) + rest;
      ScanEscaped(p[1..], nmdc, rest, cur + [p[0]]);
      assert cur + [p[0]] + p[1..] == cur + p;
      assert Escaped(p, nmdc) + rest == EscapedChar(p[0], nmdc) + tail;
      ScanChar(p[0], nmdc, tail, cur);
    }
  }

  lemma ScanChar(c: int, nmdc: bool, tail: Text, cur: Text)
    requires nmdc ==> c != NEWLINE
    ensures Scan(EscapedChar(c, nmdc) + tail, nmdc, cur) == Scan(tail, nmdc, cur + [c])
  {
    var e := EscapedChar(c, nmdc);
    var s := e + tail;
    assert s[|e|..] == tail;
  }

  lemma EscapedReads(p: Text, nmdc: bool)
    requires nmdc ==> Without(p, NEWLINE)
    ensures ReadsAs(Escaped(p, nmdc), p, nmdc)
  {
    forall rest: Text, cur: Text ensures Scan(Escaped(p, nmdc) + rest, nmdc, cur) == Scan(rest, nmdc, cur + p) {
      ScanEscaped(p, nmdc, rest, cur);
    }
  }

  /** No space and no backslash: what may stand unescaped. */
  ghost predicate Clean(w: Text) { Without(w, SPACE) && Without(w, BACKSLASH) }

  lemma {:induction false} ScanClean(w: Text, nmdc: bool, rest: Text, cur: Text)
    requires Clean(w)
    ensures Scan(w + rest, nmdc, cur) == Scan(rest, nmdc, cur + w)
    decreases |w|
  {
    if w == [] {
      assert w + rest == rest && cur + w == cur;
    } else {
      assert (w + rest)[1..] == w[1..] + rest;
      ScanClean(w[1..], nmdc, rest, cur + [w[0]]);
      assert cur + [w[0]] + w[1..] == cur + w;
    }
  }

  lemma CleanReads(w: Text, nmdc: bool)
    requires Clean(w)
    ensures ReadsAs(w, w, nmdc)
  {
    forall rest: Text, cur: Text ensures Scan(w + rest, nmdc, cur) == Scan(rest, nmdc, cur + w) {
      ScanClean(w, nmdc, rest, cur);
    }
  }

  /** Words, each after a space. */
  function Spaced(ws: seq<Text>): Text
    decreases |ws|
  {
    if ws == [] then [] else [SPACE] + ws[0] + Spaced(ws[1..])
  }

  ghost predicate AllRead(rs: seq<Text>, ws: seq<Text>, nmdc: bool) {
    |rs| == |ws| && forall i {:trigger rs[i]} {:trigger ws[i]} :: 0 <= i < |rs| ==> ReadsAs(rs[i], ws[i], nmdc)
  }

  /** What follows the word being read. */
  lemma {:induction false} ScanSpaced(rs: seq<Text>, ws: seq<Text>, nmdc: bool, cur: Text)
    requires AllRead(rs, ws, nmdc)
    ensures Scan(Spaced(rs), nmdc, cur) ==
      if ws == [] then Words([], cur, false)
      else Words([cur] + ws[..|ws| - 1], ws[|ws| - 1], false)
    decreases |rs|
  {
    if rs != [] {
      var r, tail := rs[0], Spaced(rs[1..]);
      var s := Spaced(rs);
      assert s == [SPACE] + (r + tail) && s[1..] == r + tail;
      assert ReadsAs(r, ws[0], nmdc);
      assert Scan(r + tail, nmdc, []) == Scan(tail, nmdc, [] + ws[0]);
      assert [] + ws[0] == ws[0];
      ScanSpaced(rs[1..], ws[1..], nmdc, ws[0]);
      LastOf(ws, cur);
    }
  }

  lemma LastOf(ws: seq<Text>, cur: Text)
    requires ws != []
    ensures |ws| == 1 ==> [cur] + ws[..0] == [cur] + []
    ensures |ws| > 1 ==>
      ws[1..][|ws| - 2] == ws[|ws| - 1] && [cur] + ([ws[0]] + ws[1..][..|ws| - 2]) == [cur] + ws[..|ws| - 1]
  {
    if |ws| > 1 { assert [ws[0]] + ws[1..][..|ws| - 2] == ws[..|ws| - 1]; }
  }

  lemma CleanMore(t: Text)
    requires t != [] && t[0] != SPACE && t[0] != BACKSLASH && Clean(t[1..])
    ensures Clean(t)
  {
    assert t == [t[0]] + t[1..];
  }

  /** A word of at most n characters with a space or a backslash in it is never read as a word of n. */
  lemma {:induction false} UncleanIsShort(t: Text, rest: Text, cur: Text, n: nat)
    requires rest == [] || rest[0] == SPACE
    requires |cur| + |t| < n || (|cur| + |t| == n && !Clean(t))
    ensures var w := Scan(t + rest, false, cur); if w.done == [] then w.bad || |w.last| < n else |w.done[0]| < n
    decreases |t|
  {
    var s := t + rest;
    if t == [] {
      assert s == rest;
    } else if t[0] == BACKSLASH {
      if |t| >= 2 && Unescaped(t[1], false) != -1 {
        assert s[2..] == t[2..] + rest;
        UncleanIsShort(t[2..], rest, cur + [Unescaped(t[1], false)], n);
      } else {
        assert |s| >= 2 ==> s[1] == if |t| >= 2 then t[1] else rest[0];
      }
    } else if t[0] != SPACE {
      assert s[1..] == t[1..] + rest;
      if Clean(t[1..]) { CleanMore(t); }
      UncleanIsShort(t[1..], rest, cur + [t[0]], n);
    }
  }

  /** A newline that the older escaping leaves behind a backslash stops the reading. */
  lemma {:induction false} NewlineStops(p: Text, rest: Text, cur: Text)
    requires !Without(p, NEWLINE)
    ensures var w := Scan(Escaped(p, true) + rest, true, cur); w.bad && w.done == []
    decreases |p|
  {
    var e, tail := EscapedChar(p[0], true), Escaped(p[1..], true) + rest;
    var s := Escaped(p, true) + rest;
    assert s == e + tail && s[|e|..] == tail;
    if Special(p[0]) { assert s[1] == p[0]; }
    if p[0] != NEWLINE {
      assert p == [p[0]] + p[1..];
      NewlineStops(p[1..], rest, cur + [p[0]]);
    }
  }
}
