/** ADC commands: the parser, the printer, and when a printed command parses back. */
module AdcCommand {
  import opened AdcText
  import Base32
  import BitIo

  const BROADCAST := 'B' as int
  const CLIENT := 'C' as int
  const DIRECT := 'D' as int
  const ECHO := 'E' as int
  const FEATURE := 'F' as int
  const HUB := 'H' as int
  const INFO := 'I' as int
  const UDP := 'U' as int

  /** One more than the largest SID. */
  const SIDS := 4294967296
  const HUB_SID := SIDS - 1

  predicate ValidKind(k: int) {
    k == BROADCAST || k == CLIENT || k == DIRECT || k == ECHO || k == FEATURE || k == INFO || k == HUB || k == UDP
  }

  predicate NeedsFrom(k: int) { k == BROADCAST || k == DIRECT || k == ECHO || k == FEATURE }

  predicate NeedsTo(k: int) { k == DIRECT || k == ECHO }

  // ---- SIDs ----

  /** A SID as its four bytes in memory, lowest first. */
  function FromSid(sid: int): (r: Text)
    requires 0 <= sid < SIDS
    ensures |r| == 4
  {
    [sid % 256, sid / 256 % 256, sid / 65536 % 256, sid / 16777216]
  }

  /** 0 for a text of the wrong length. */
  function ToSid(t: Text): int { if |t| != 4 then 0 else t[0] + 256 * t[1] + 65536 * t[2] + 16777216 * t[3] }

  lemma SidComesBack(sid: int)
    requires 0 <= sid < SIDS
    ensures ToSid(FromSid(sid)) == sid
  {
    var a, b := sid / 256, sid / 65536;
    assert b == a / 256 && sid / 16777216 == b / 256;
    assert sid == 256 * a + sid % 256 && a == 256 * b + a % 256;
  }

  // ---- what a line means ----

  datatype Status = Okay | TooShort | InvalidType | EscapeAtEol | InvalidSid
      | InvalidFeature | MissingFrom | MissingTo | MissingFeature

  datatype Cmd = Cmd(kind: int, code: Text, from: int, to: int, params: seq<Text>)

  /** A command being filled in word by word. */
  datatype Slots = Slots(cmd: Cmd, fromSet: bool, toSet: bool, featureSet: bool)

  datatype Step = Step(status: Status, slots: Slots)

  datatype Outcome = Outcome(status: Status, cmd: Cmd)

  /** Where the next word goes. */
  function Place(p: Slots, w: Text): Step {
    var c := p.cmd;
    if NeedsFrom(c.kind) && !p.fromSet then
      var q := p.(cmd := c.(from := ToSid(w)));
      if ToSid(w) == 0 then Step(InvalidSid, q) else Step(Okay, q.(fromSet := true))
    else if NeedsTo(c.kind) && !p.toSet then
      var q := p.(cmd := c.(to := ToSid(w)));
      if ToSid(w) == 0 then Step(InvalidSid, q) else Step(Okay, q.(toSet := true))
    else if c.kind == FEATURE && !p.featureSet then
      if |w| % 5 != 0 then Step(InvalidFeature, p) else Step(Okay, p.(featureSet := true))
    else Step(Okay, p.(cmd := c.(params := c.params + [w])))
  }

  function PlaceAll(p: Slots, ws: seq<Text>): Step
    decreases |ws|
  {
    if ws == [] then Step(Okay, p)
    else
      var s := Place(p, ws[0]);
      if s.status != Okay then s else PlaceAll(s.slots, ws[1..])
  }

  function Missing(p: Slots): Status {
    if NeedsFrom(p.cmd.kind) && !p.fromSet then MissingFrom
    else if p.cmd.kind == FEATURE && !p.featureSet then MissingFeature
    else if NeedsTo(p.cmd.kind) && !p.toSet then MissingTo
    else Okay
  }

  /** All words placed, in order, up to the first thing wrong. An empty last word is no word. */
  function Filled(p: Slots, w: Words): Step {
    var s := PlaceAll(p, w.done);
    if s.status != Okay then s
    else if w.bad then Step(EscapeAtEol, s.slots)
    else
      var e := if w.last == [] then s else Place(s.slots, w.last);
      if e.status != Okay then e else Step(Missing(e.slots), e.slots)
  }

  /** "yxxx ..." or "$ADCxxx ...", parsed onto a command. */
  function Headed(c: Cmd, buf: Text, nmdc: bool): Cmd
    requires |buf| >= if nmdc then 7 else 4
  {
    if nmdc then c.(kind := CLIENT, code := buf[4..7]) else c.(kind := buf[0], code := buf[1..4])
  }

  function Body(buf: Text, nmdc: bool): Text {
    var i := if nmdc then 8 else 5;
    if |buf| < i then [] else buf[i..]
  }

  function Parsed(c: Cmd, buf: Text, nmdc: bool): Outcome {
    if |buf| < (if nmdc then 7 else 4) then Outcome(TooShort, c)
    else
      var h := Headed(c, buf, nmdc);
      if !ValidKind(h.kind) then Outcome(InvalidType, h)
      else
        var start := if h.kind == INFO then h.(from := HUB_SID) else h;
        var f := Filled(Slots(start, nmdc, false, false), Scan(Body(buf, nmdc), nmdc, []));
        Outcome(f.status, f.slots.cmd)
  }

  // ---- what a command looks like ----

  /** A C string ends at its first NUL. */
  function CString(s: Text): Text
    decreases |s|
  {
    if s == [] || s[0] == 0 then [] else [s[0]] + CString(s[1..])
  }

  function Sids(c: Cmd, sid: int): seq<Text>
    requires 0 <= sid < SIDS && 0 <= c.to < SIDS
  {
    (if NeedsFrom(c.kind) then [FromSid(sid)] else []) + if NeedsTo(c.kind) then [FromSid(c.to)] else []
  }

  function HeadWords(c: Cmd, features: Text, sid: int): seq<Text>
    requires 0 <= sid < SIDS && 0 <= c.to < SIDS
  {
    Sids(c, sid) + if c.kind == FEATURE then [features] else []
  }

  function EscapedAll(ps: seq<Text>, nmdc: bool): (r: seq<Text>)
    ensures |r| == |ps|
    ensures forall i {:trigger ps[i]} {:trigger r[i]} :: 0 <= i < |ps| ==> r[i] == Escaped(ps[i], nmdc)
  {
    seq(|ps|, i requires 0 <= i < |ps| => Escaped(ps[i], nmdc))
  }

  function Front(c: Cmd, nmdc: bool): Text {
    (if nmdc then [36, 65, 68, 67] else [c.kind]) + CString(c.code)
  }

  /** The command without its end of line. */
  function Line(c: Cmd, features: Text, sid: int, nmdc: bool): Text
    requires 0 <= sid < SIDS && 0 <= c.to < SIDS
  {
    Front(c, nmdc) + Spaced(HeadWords(c, features, sid) + EscapedAll(c.params, nmdc))
  }

  /** The form that starts with the CID of the sender. */
  function CidLine(c: Cmd, cid: seq<int>, nmdc: bool): Text
    requires BitIo.AreBytes(cid)
  {
    Front(c, false) + Spaced([Base32.Text(cid)] + EscapedAll(c.params, nmdc))
  }

  // ---- the object ----

  class AdcCommand {
    var kind: int
    var code: Text
    var features: Text
    var from: int
    var to: int
    var parameters: seq<Text>

    ghost predicate Valid()
      reads this
    {
      |code| == 3 && 0 <= to < SIDS
    }

    ghost function Value(): Cmd
      reads this
    {
      Cmd(kind, code, from, to, parameters)
    }

    /** A command with no parameters yet. */
    constructor (code: Text, target: int, kind: int)
      requires |code| == 3 && 0 <= target < SIDS
      ensures Valid() && Value() == Cmd(kind, code, 0, target, []) && features == []
    {
      this.kind, this.code, features := kind, code, [];
      from, to, parameters := 0, target, [];
    }

    /** Stores one word in the slot it belongs to. */
    method PutWord(word: Text, fromSet: bool, toSet: bool, featureSet: bool)
        returns (status: Status, fromSet': bool, toSet': bool, featureSet': bool)
      modifies this`from, this`to, this`parameters
      ensures Step(status, Slots(Value(), fromSet', toSet', featureSet')) ==
        Place(Slots(old(Value()), fromSet, toSet, featureSet), word)
    {
      status, fromSet', toSet', featureSet' := Okay, fromSet, toSet, featureSet;
      if NeedsFrom(kind) && !fromSet {
        from := ToSid(word);
        if from == 0 { status := InvalidSid; return; }
        fromSet' := true;
      } else if NeedsTo(kind) && !toSet {
        to := ToSid(word);
        if to == 0 { status := InvalidSid; return; }
        toSet' := true;
      } else if kind == FEATURE && !featureSet {
        if |word| % 5 != 0 { status := InvalidFeature; return; }
        featureSet' := true;
      } else {
        parameters := parameters + [word];
      }
    }

    /** The character after a backslash. */
    method ReadEscape(c: int, nmdc: bool) returns (r: int)
      ensures r == Unescaped(c, nmdc)
    {
      if c == LETTER_S { return SPACE; }
      if c == LETTER_N { return NEWLINE; }
      if c == BACKSLASH { return BACKSLASH; }
      if c == SPACE && nmdc { return SPACE; }
      r := -1;
    }

    /** The loop of parse over the text after the command code. */
    method ParseWords(buf: Text, start: nat, nmdc: bool) returns (status: Status)
      modifies this`from, this`to, this`parameters
      ensures var f := Filled(Slots(old(Value()), nmdc, false, false),
          Scan(if |buf| < start then [] else buf[start..], nmdc, []));
              status == f.status && Value() == f.slots.cmd
    {
      var fromSet, toSet, featureSet := nmdc, false, false;
      var i, cur: Text := start, [];
      ghost var goal := Filled(Slots(Value(), nmdc, false, false),
        Scan(if |buf| < start then [] else buf[start..], nmdc, []));
      status := Okay;
      while i < |buf|
        invariant start <= i && status == Okay
          && goal ==
               Filled(Slots(Value(), fromSet, toSet, featureSet), Scan(if |buf| < i then [] else buf[i..], nmdc, cur))
        decreases |buf| - i
      {
        assert buf[i..][1..] == buf[i + 1..];
        if buf[i] == BACKSLASH {
          i := i + 1;
          if i == |buf| { return EscapeAtEol; }
          assert buf[i - 1..][2..] == buf[i + 1..];
          var c := ReadEscape(buf[i], nmdc);
          if c == -1 { return EscapeAtEol; }
          cur := cur + [c];
        } else if buf[i] == SPACE {
          ghost var p, rest := Slots(Value(), fromSet, toSet, featureSet), Scan(buf[i + 1..], nmdc, []);
          FilledMore(p, cur, rest);
          status, fromSet, toSet, featureSet := PutWord(cur, fromSet, toSet, featureSet);
          if status != Okay { return; }
          cur := [];
        } else {
          cur := cur + [buf[i]];
        }
        i := i + 1;
      }
      status := EndWords(cur, fromSet, toSet, featureSet);
    }

    /** The last word, and what is missing then. */
    method EndWords(cur: Text, fromSet0: bool, toSet0: bool, featureSet0: bool) returns (status: Status)
      modifies this`from, this`to, this`parameters
      ensures var f := Filled(Slots(old(Value()), fromSet0, toSet0, featureSet0), Words([], cur, false));
              status == f.status && Value() == f.slots.cmd
    {
      var fromSet, toSet, featureSet := fromSet0, toSet0, featureSet0;
      status := Okay;
      if cur != [] {
        status, fromSet, toSet, featureSet := PutWord(cur, fromSet, toSet, featureSet);
        if status != Okay { return; }
      }
      if NeedsFrom(kind) && !fromSet { return MissingFrom; }
      if kind == FEATURE && !featureSet { return MissingFeature; }
      if NeedsTo(kind) && !toSet { return MissingTo; }
    }

    /** parse. */
    method Parse(buf: Text, nmdc: bool) returns (status: Status)
      modifies this`kind, this`code, this`from, this`to, this`parameters
      ensures Outcome(status, Value()) == Parsed(old(Value()), buf, nmdc)
    {
      var i := 5;
      if nmdc {
        if |buf| < 7 { return TooShort; }
        kind, code := CLIENT, [buf[4], buf[5], buf[6]];
        assert code == buf[4..7];
        i := i + 3;
      } else {
        if |buf| < 4 { return TooShort; }
        kind, code := buf[0], [buf[1], buf[2], buf[3]];
        assert code == buf[1..4];
      }
      if !ValidKind(kind) { return InvalidType; }
      if kind == INFO { from := HUB_SID; }
      status := ParseWords(buf, i, nmdc);
    }

    /** getHeaderString. */
    method HeaderString(sid: int, nmdc: bool) returns (tmp: Text)
      requires Valid() && 0 <= sid < SIDS
      ensures tmp == Front(Value(), nmdc) + Spaced(HeadWords(Value(), features, sid))
    {
      tmp := if nmdc then [36, 65, 68, 67] else [kind];
      tmp := tmp + CString(code);
      ghost var ws: seq<Text> := [];
      ghost var front := tmp;
      assert front + Spaced([]) == front;
      if NeedsFrom(kind) {
        SpacedMore(front, ws, FromSid(sid));
        ws := ws + [FromSid(sid)];
        tmp := tmp + [SPACE];
        tmp := tmp + FromSid(sid);
      }
      if NeedsTo(kind) {
        SpacedMore(front, ws, FromSid(to));
        ws := ws + [FromSid(to)];
        tmp := tmp + [SPACE];
        tmp := tmp + FromSid(to);
      }
      if kind == FEATURE {
        SpacedMore(front, ws, features);
        ws := ws + [features];
        tmp := tmp + [SPACE];
        tmp := tmp + features;
      }
      assert ws == HeadWords(Value(), features, sid);
    }

    /** getParamString, added to a text. */
    method ParamString(nmdc: bool) returns (tmp: Text)
      ensures tmp == Spaced(EscapedAll(parameters, nmdc)) + [if nmdc then PIPE else NEWLINE]
    {
      tmp := [];
      var i := 0;
      ghost var all := EscapedAll(parameters, nmdc);
      assert all[..0] == [];
      while i < |parameters|
        invariant 0 <= i <= |parameters| && tmp == Spaced(all[..i])
      {
        var e := Escape(parameters[i], nmdc);
        SpacedMore([], all[..i], e);
        assert all[..i + 1] == all[..i] + [e] && [] + Spaced(all[..i]) == tmp
          && [] + Spaced(all[..i + 1]) == Spaced(all[..i + 1]);
        tmp := tmp + [SPACE];
        tmp := tmp + e;
        i := i + 1;
      }
      assert all[..i] == all;
      tmp := tmp + [if nmdc then PIPE else NEWLINE];
    }

    /** toString. */
    method ToString(sid: int, nmdc: bool) returns (tmp: Text)
      requires Valid() && 0 <= sid < SIDS
      ensures tmp == Line(Value(), features, sid, nmdc) + [if nmdc then PIPE else NEWLINE]
    {
      var head := HeaderString(sid, nmdc);
      var tail := ParamString(nmdc);
      SpacedAppend(HeadWords(Value(), features, sid), EscapedAll(parameters, nmdc));
      tmp := head + tail;
      Joined(Front(Value(), nmdc), Spaced(HeadWords(Value(), features, sid)), Spaced(EscapedAll(parameters, nmdc)),
        [if nmdc then PIPE else NEWLINE]);
    }

    /** toString with a CID, for UDP. */
    method ToCidString(cid: seq<int>, nmdc: bool) returns (tmp: Text)
      requires Valid() && BitIo.AreBytes(cid) && kind == UDP
      ensures tmp == CidLine(Value(), cid, nmdc) + [if nmdc then PIPE else NEWLINE]
    {
      ghost var word := Base32.Text(cid);
      tmp := [kind] + CString(code);
      ghost var front := tmp;
      tmp := tmp + [SPACE];
      tmp := Base32.ToBase32(cid, tmp);
      assert tmp == front + ([SPACE] + word);
      var tail := ParamString(nmdc);
      tmp := tmp + tail;
      ghost var ps := EscapedAll(parameters, nmdc);
      assert ([word] + ps)[1..] == ps;
      Joined(front, [SPACE] + word, Spaced(ps), [if nmdc then PIPE else NEWLINE]);
    }
  }

  lemma Joined(a: Text, b: Text, c: Text, d: Text)
    ensures (a + b) + (c + d) == (a + (b + c)) + d
  {
  }

  lemma {:induction false} SpacedAppend(a: seq<Text>, b: seq<Text>)
    ensures Spaced(a + b) == Spaced(a) + Spaced(b)
    decreases |a|
  {
    if a == [] {
      assert a + b == b;
    } else {
      assert (a + b)[1..] == a[1..] + b;
      SpacedAppend(a[1..], b);
      Joined([], [SPACE] + a[0], Spaced(a[1..]), Spaced(b));
      assert [] + ([SPACE] + a[0]) == [SPACE] + a[0]
        && [] + (([SPACE] + a[0]) + Spaced(a[1..])) == ([SPACE] + a[0]) + Spaced(a[1..]);
    }
  }

  lemma SpacedMore(front: Text, ws: seq<Text>, w: Text)
    ensures front + Spaced(ws + [w]) == front + Spaced(ws) + [SPACE] + w
  {
    SpacedAppend(ws, [w]);
    assert Spaced([w]) == [SPACE] + w;
  }

  lemma FilledMore(p: Slots, w: Text, rest: Words)
    ensures var s := Place(p, w);
      Filled(p, rest.(done := [w] + rest.done)) ==
      if s.status == Okay then Filled(s.slots, rest) else s
  {
    assert ([w] + rest.done)[1..] == rest.done;
  }
}
