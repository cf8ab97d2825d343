/** Printed ADC commands parse back: one by one, and as a stream of lines cut anywhere. */
module AdcRoundTrip {
  import opened AdcText
  import opened AdcCommand
  import Framing
  import Base32
  import BitIo

  /** The command that parse is called on: AdcCommand(0). */
  function Fresh(): Cmd { Cmd(CLIENT, [0, 0, 0], 0, 0, []) }

  /** parse drops one empty parameter at the end. */
  function Trimmed(ps: seq<Text>): seq<Text> {
    if ps != [] && ps[|ps| - 1] == [] then ps[..|ps| - 1] else ps
  }

  /** What a printed command is read as. */
  function Back(c: Cmd, sid: int): Cmd {
    Cmd(c.kind, c.code, if NeedsFrom(c.kind) then sid else if c.kind == INFO then HUB_SID else 0,
      if NeedsTo(c.kind) then c.to else 0, Trimmed(c.params))
  }

  ghost predicate GoodSid(sid: int)
    requires 0 <= sid < SIDS
  {
    sid != 0 && Clean(FromSid(sid))
  }

  ghost predicate Printable(c: Cmd, features: Text, sid: int) {
    |c.code| == 3 && Without(c.code, 0) && 0 <= sid < SIDS && 0 <= c.to < SIDS
      && (c.kind == FEATURE ==> Clean(features))
  }

  /** What it takes to be read back. */
  ghost predicate Parses(c: Cmd, features: Text, sid: int)
    requires Printable(c, features, sid)
  {
    ValidKind(c.kind) && (NeedsFrom(c.kind) ==> GoodSid(sid)) && (NeedsTo(c.kind) ==> GoodSid(c.to)) &&
    (c.kind == FEATURE ==> |features| % 5 == 0 && (features != [] || c.params != []))
  }

  // ---- words into slots ----

  /** Words that are all parameters. */
  lemma {:induction false} PlaceParams(p: Slots, ws: seq<Text>)
    requires Missing(p) == Okay
    ensures PlaceAll(p, ws) == Step(Okay, p.(cmd := p.cmd.(params := p.cmd.params + ws)))
    decreases |ws|
  {
    if ws == [] {
      assert p.cmd.params + ws == p.cmd.params;
    } else {
      PlaceParams(p.(cmd := p.cmd.(params := p.cmd.params + [ws[0]])), ws[1..]);
      assert p.cmd.params + [ws[0]] + ws[1..] == p.cmd.params + ws;
    }
  }

  /** The words as Scan gives them back. */
  function AsWords(ws: seq<Text>): Words {
    if ws == [] then Words([], [], false) else Words(ws[..|ws| - 1], ws[|ws| - 1], false)
  }

  lemma FilledParams(p: Slots, ws: seq<Text>)
    requires Missing(p) == Okay
    ensures Filled(p, AsWords(ws)) == Step(Okay, p.(cmd := p.cmd.(params := p.cmd.params + Trimmed(ws))))
  {
    if ws == [] {
      assert p.cmd.params + [] == p.cmd.params;
    } else {
      var m := |ws| - 1;
      PlaceParams(p, ws[..m]);
      if ws[m] != [] {
        assert ws == ws[..m] + [ws[m]];
        assert p.cmd.params + ws[..m] + [ws[m]] == p.cmd.params + ws;
      }
    }
  }

  /** One word before others. */
  lemma FilledFirst(p: Slots, w: Text, ws: seq<Text>)
    ensures var s := Place(p, w);
            Filled(p, AsWords([w] + ws)) ==
              if w == [] && ws == [] then Step(Missing(p), p)
                else if s.status == Okay then Filled(s.slots, AsWords(ws)) else s
  {
    var all := [w] + ws;
    if ws != [] {
      var rest := AsWords(ws);
      assert all[..|all| - 1] == [w] + rest.done;
      FilledMore(p, w, rest);
    } else {
      assert all[..0] == [];
    }
  }

  // ---- the text of a command into words ----

  lemma {:induction false} CodeKept(code: Text)
    requires Without(code, 0)
    ensures CString(code) == code
    decreases |code|
  {
    if code != [] { CodeKept(code[1..]); }
  }

  /** Words after the command code. */
  lemma BodyOf(c: Cmd, rs: seq<Text>, nmdc: bool)
    requires |c.code| == 3 && Without(c.code, 0)
    ensures var t := Front(c, nmdc) + Spaced(rs);
            |t| >= (if nmdc then 7 else 4)
              && Headed(Fresh(), t, nmdc) == Cmd(if nmdc then CLIENT else c.kind, c.code, 0, 0, []) &&
            Body(t, nmdc) == if rs == [] then [] else rs[0] + Spaced(rs[1..])
  {
    CodeKept(c.code);
    var f := Front(c, nmdc);
    var t := f + Spaced(rs);
    var n := |f|;
    assert n == if nmdc then 7 else 4;
    assert t[..n] == f && t[n - 3..n] == c.code;
    if rs != [] { Skip(f, rs[0], Spaced(rs[1..])); }
  }

  lemma Skip(f: Text, r: Text, z: Text)
    ensures (f + ([SPACE] + r + z))[|f| + 1..] == r + z
  {
  }

  /** Text that reads as these words. */
  lemma ScanWords(rs: seq<Text>, ws: seq<Text>, nmdc: bool)
    requires AllRead(rs, ws, nmdc)
    ensures Scan(if rs == [] then [] else rs[0] + Spaced(rs[1..]), nmdc, []) == AsWords(ws)
  {
    if rs != [] {
      var tail := Spaced(rs[1..]);
      assert ReadsAs(rs[0], ws[0], nmdc);
      assert Scan(rs[0] + tail, nmdc, []) == Scan(tail, nmdc, [] + ws[0]);
      assert [] + ws[0] == ws[0];
      ScanSpaced(rs[1..], ws[1..], nmdc, ws[0]);
      if |ws| > 1 { assert [ws[0]] + ws[1..][..|ws| - 2] == ws[..|ws| - 1]; }
    }
  }

  lemma AllReadMore(r: Text, w: Text, rs: seq<Text>, ws: seq<Text>, nmdc: bool)
    requires ReadsAs(r, w, nmdc) && AllRead(rs, ws, nmdc)
    ensures AllRead([r] + rs, [w] + ws, nmdc)
  {
  }

  lemma ParamsRead(ps: seq<Text>, nmdc: bool)
    requires nmdc ==> forall i {:trigger ps[i]} :: 0 <= i < |ps| ==> Without(ps[i], NEWLINE)
    ensures AllRead(EscapedAll(ps, nmdc), ps, nmdc)
  {
    forall i | 0 <= i < |ps| ensures ReadsAs(EscapedAll(ps, nmdc)[i], ps[i], nmdc) {
      EscapedReads(ps[i], nmdc);
    }
  }

  // ---- the words after the SIDs ----

  /** The feature word, when there is one, and the parameters. */
  function Tail(c: Cmd, features: Text): seq<Text> { if c.kind == FEATURE then [features] + c.params else c.params }

  function TailText(c: Cmd, features: Text): seq<Text> {
    if c.kind == FEATURE then [features] + EscapedAll(c.params, false) else EscapedAll(c.params, false)
  }

  lemma TailRead(c: Cmd, features: Text)
    requires c.kind == FEATURE ==> Clean(features)
    ensures AllRead(TailText(c, features), Tail(c, features), false)
  {
    ParamsRead(c.params, false);
    if c.kind == FEATURE {
      CleanReads(features, false);
      AllReadMore(features, features, EscapedAll(c.params, false), c.params, false);
    }
  }

  lemma TailFilled(p: Slots, c: Cmd, features: Text)
    requires p.cmd.kind == c.kind && p.cmd.params == [] && !p.featureSet && (NeedsFrom(c.kind) ==> p.fromSet)
      && (NeedsTo(c.kind) ==> p.toSet)
    ensures var f := Filled(p, AsWords(Tail(c, features)));
            (f.status == Okay <==> (c.kind == FEATURE ==> |features| % 5 == 0 && (features != [] || c.params != []))) &&
            (f.status == Okay ==> f.slots.cmd == p.cmd.(params := Trimmed(c.params)))
  {
    assert [] + Trimmed(c.params) == Trimmed(c.params);
    if c.kind == FEATURE {
      FilledFirst(p, features, c.params);
      if |features| % 5 == 0 { FilledParams(p.(featureSet := true), c.params); }
    } else {
      FilledParams(p, c.params);
    }
  }

  // ---- the SIDs ----

  ghost predicate WantsSid(p: Slots) {
    (NeedsFrom(p.cmd.kind) && !p.fromSet) || (NeedsTo(p.cmd.kind) && !p.toSet)
  }

  /** A SID word that cannot be read back stops the parser. */
  lemma BadSidStops(p: Slots, sid: int, rest: seq<Text>)
    requires 0 <= sid < SIDS && !GoodSid(sid) && WantsSid(p)
    ensures Filled(p, Scan(FromSid(sid) + Spaced(rest), false, [])).status != Okay
  {
    var t, tail := FromSid(sid), Spaced(rest);
    var w := Scan(t + tail, false, []);
    if Clean(t) {
      SidComesBack(sid);
      ScanClean(t, false, tail, []);
      assert [] + t == t;
      if tail != [] { assert w.done[0] == t; }
    } else {
      UncleanIsShort(t, tail, [], 4);
    }
  }

  ghost function ScanTexts(ts: seq<Text>): Words {
    Scan(if ts == [] then [] else ts[0] + Spaced(ts[1..]), false, [])
  }

  /** A clean word and what follows it. */
  lemma CleanWord(t: Text, rest: seq<Text>)
    requires Clean(t)
    ensures Scan(t + Spaced(rest), false, []) ==
      if rest == [] then Words([], t, false)
      else var w := ScanTexts(rest); w.(done := [t] + w.done)
  {
    var tail := Spaced(rest);
    ScanClean(t, false, tail, []);
    assert [] + t == t;
    if rest != [] { assert tail[1..] == rest[0] + Spaced(rest[1..]); }
  }

  lemma GoodSidPasses(p: Slots, sid: int, rest: seq<Text>)
    requires 0 <= sid < SIDS && GoodSid(sid) && WantsSid(p)
    ensures var s := Place(p, FromSid(sid));
      s.status == Okay && Filled(p, Scan(FromSid(sid) + Spaced(rest), false, [])) ==
      Filled(s.slots, ScanTexts(rest))
  {
    var t := FromSid(sid);
    SidComesBack(sid);
    CleanWord(t, rest);
    if rest != [] {
      FilledMore(p, t, ScanTexts(rest));
    } else {
      LastWord(p, t);
    }
  }

  lemma LastWord(p: Slots, t: Text)
    requires t != [] && Place(p, t).status == Okay
    ensures Filled(p, Words([], t, false)) == Filled(Place(p, t).slots, Words([], [], false))
  {
  }

  // ---- one command ----

  /** The SID words, then the rest. */
  ghost function Texts(sids: seq<int>, tail: seq<Text>): seq<Text>
    requires forall i {:trigger sids[i]} :: 0 <= i < |sids| ==> 0 <= sids[i] < SIDS
    decreases |sids|
  {
    if sids == [] then tail else [FromSid(sids[0])] + Texts(sids[1..], tail)
  }

  ghost function SidList(c: Cmd, sid: int): seq<int> {
    if NeedsTo(c.kind) then [sid, c.to] else if NeedsFrom(c.kind) then [sid] else []
  }

  lemma LineTexts(c: Cmd, features: Text, sid: int)
    requires Printable(c, features, sid)
    ensures HeadWords(c, features, sid) + EscapedAll(c.params, false) == Texts(SidList(c, sid), TailText(c, features))
  {
    var tail := TailText(c, features);
    if NeedsTo(c.kind) {
      assert SidList(c, sid)[1..] == [c.to] && [c.to][1..] == [];
      assert HeadWords(c, features, sid) == [FromSid(sid)] + [FromSid(c.to)];
      assert Texts([], tail) == tail && Texts([c.to], tail) == [FromSid(c.to)] + tail;
      assert HeadWords(c, features, sid) + tail == [FromSid(sid)] + ([FromSid(c.to)] + tail);
    } else if NeedsFrom(c.kind) {
      assert [sid][1..] == [];
      assert HeadWords(c, features, sid) == [FromSid(sid)] + if c.kind == FEATURE then [features] else [];
    }
  }

  /** One SID at the front. */
  lemma SidStep(p: Slots, sid: int, rest: seq<Text>)
    requires 0 <= sid < SIDS && WantsSid(p)
    ensures var f := Filled(p, ScanTexts([FromSid(sid)] + rest));
            if GoodSid(sid) then
              Place(p, FromSid(sid)).status == Okay && f == Filled(Place(p, FromSid(sid)).slots, ScanTexts(rest))
            else f.status != Okay
  {
    assert ([FromSid(sid)] + rest)[1..] == rest;
    if GoodSid(sid) { GoodSidPasses(p, sid, rest); } else { BadSidStops(p, sid, rest); }
  }

  /** A printed command is read back exactly when its SIDs and features allow it, and then as it was, less one empty
      parameter at the end. */
  lemma PrintedParses(c: Cmd, features: Text, sid: int)
    requires Printable(c, features, sid)
    ensures var r := Parsed(Fresh(), Line(c, features, sid, false), false);
            (r.status == Okay <==> Parses(c, features, sid)) && (r.status == Okay ==> r.cmd == Back(c, sid))
  {
    var tail := TailText(c, features);
    var ts := Texts(SidList(c, sid), tail);
    LineTexts(c, features, sid);
    BodyOf(c, ts, false);
    if ValidKind(c.kind) {
      TailRead(c, features);
      ScanWords(tail, Tail(c, features), false);
      SlotsFill(c, features, sid);
    }
  }

  /** The slots at the start. */
  function Start(c: Cmd): Slots {
    Slots(Cmd(c.kind, c.code, if c.kind == INFO then HUB_SID else 0, 0, []), false, false, false)
  }

  lemma SlotsFill(c: Cmd, features: Text, sid: int)
    requires Printable(c, features, sid) && ValidKind(c.kind)
    requires ScanTexts(TailText(c, features)) == AsWords(Tail(c, features))
    ensures var f := Filled(Start(c), ScanTexts(Texts(SidList(c, sid), TailText(c, features))));
            (f.status == Okay <==> Parses(c, features, sid)) && (f.status == Okay ==> f.slots.cmd == Back(c, sid))
  {
    if NeedsTo(c.kind) {
      SlotsFillTwo(c, features, sid);
    } else if NeedsFrom(c.kind) {
      SlotsFillOne(c, features, sid);
    } else {
      TailFilled(Start(c), c, features);
    }
  }

  lemma SlotsFillOne(c: Cmd, features: Text, sid: int)
    requires Printable(c, features, sid) && ValidKind(c.kind) && NeedsFrom(c.kind) && !NeedsTo(c.kind)
    requires ScanTexts(TailText(c, features)) == AsWords(Tail(c, features))
    ensures var f := Filled(Start(c), ScanTexts(Texts(SidList(c, sid), TailText(c, features))));
            (f.status == Okay <==> Parses(c, features, sid)) && (f.status == Okay ==> f.slots.cmd == Back(c, sid))
  {
    var p, tail := Start(c), TailText(c, features);
    SidComesBack(sid);
    assert [sid][1..] == [];
    assert Texts(SidList(c, sid), tail) == [FromSid(sid)] + tail;
    SidStep(p, sid, tail);
    if GoodSid(sid) { TailFilled(Place(p, FromSid(sid)).slots, c, features); }
  }

  lemma SlotsFillTwo(c: Cmd, features: Text, sid: int)
    requires Printable(c, features, sid) && ValidKind(c.kind) && NeedsTo(c.kind)
    requires ScanTexts(TailText(c, features)) == AsWords(Tail(c, features))
    ensures var f := Filled(Start(c), ScanTexts(Texts(SidList(c, sid), TailText(c, features))));
            (f.status == Okay <==> Parses(c, features, sid)) && (f.status == Okay ==> f.slots.cmd == Back(c, sid))
  {
    var p, tail := Start(c), TailText(c, features);
    SidComesBack(sid);
    TwoSids(sid, c.to, tail);
    SidStep(p, sid, [FromSid(c.to)] + tail);
    if GoodSid(sid) {
      var q := Place(p, FromSid(sid)).slots;
      SidStep(q, c.to, tail);
      SidComesBack(c.to);
      if GoodSid(c.to) { TailFilled(Place(q, FromSid(c.to)).slots, c, features); }
    }
  }

  lemma TwoSids(sid: int, to: int, tail: seq<Text>)
    requires 0 <= sid < SIDS && 0 <= to < SIDS
    ensures Texts([sid, to], tail) == [FromSid(sid)] + ([FromSid(to)] + tail)
  {
    assert [sid, to][1..] == [to] && [to][1..] == [];
    assert Texts([to], tail) == [FromSid(to)] + tail;
  }

  // ---- the other two forms ----

  lemma CidIsPlain(cid: seq<int>)
    requires BitIo.AreBytes(cid)
    ensures Clean(Base32.Text(cid)) && Without(Base32.Text(cid), NEWLINE)
  {
  }

  /** A command with a CID is read back with the CID as its first parameter. */
  lemma CidPrintedParses(c: Cmd, cid: seq<int>)
    requires c.kind == UDP && |c.code| == 3 && Without(c.code, 0) && BitIo.AreBytes(cid) && cid != []
    ensures Parsed(Fresh(), CidLine(c, cid, false), false) ==
      Outcome(Okay, Cmd(UDP, c.code, 0, 0, [Base32.Text(cid)] + Trimmed(c.params)))
  {
    CidIsPlain(cid);
    WordFirst(c, Base32.Text(cid));
  }

  /** A command whose first word is plain. */
  lemma WordFirst(c: Cmd, word: Text)
    requires c.kind == UDP && |c.code| == 3 && Without(c.code, 0) && Clean(word) && word != []
    ensures Parsed(Fresh(), Front(c, false) + Spaced([word] + EscapedAll(c.params, false)), false) ==
            Outcome(Okay, Cmd(UDP, c.code, 0, 0, [word] + Trimmed(c.params)))
  {
    var rs, ws := [word] + EscapedAll(c.params, false), [word] + c.params;
    WordsRead(c, word);
    BodyOf(c, rs, false);
    ScanWords(rs, ws, false);
    FilledParams(Start(c), ws);
    assert [] + Trimmed(ws) == Trimmed(ws);
    TrimTail(word, c.params);
  }

  lemma WordsRead(c: Cmd, word: Text)
    requires Clean(word)
    ensures AllRead([word] + EscapedAll(c.params, false), [word] + c.params, false)
  {
    CleanReads(word, false);
    ParamsRead(c.params, false);
    AllReadMore(word, word, EscapedAll(c.params, false), c.params, false);
  }

  lemma TrimTail(w: Text, ps: seq<Text>)
    requires w != []
    ensures Trimmed([w] + ps) == [w] + Trimmed(ps)
  {
    if ps != [] { assert ([w] + ps)[..|ps|] == [w] + ps[..|ps| - 1]; }
  }

  ghost predicate NoNewlines(ps: seq<Text>) { forall i {:trigger ps[i]} :: 0 <= i < |ps| ==> Without(ps[i], NEWLINE) }

  lemma NewlinesLater(ps: seq<Text>)
    requires ps != [] && !NoNewlines(ps) && Without(ps[0], NEWLINE)
    ensures !NoNewlines(ps[1..])
  {
    assert ps == [ps[0]] + ps[1..];
  }

  lemma {:induction false} NewlineParamStops(ps: seq<Text>, cur: Text)
    requires !NoNewlines(ps)
    ensures Scan(Spaced(EscapedAll(ps, true)), true, cur).bad
    decreases |ps|
  {
    var es := EscapedAll(ps, true);
    var tail := Spaced(es[1..]);
    var s := Spaced(es);
    assert s == [SPACE] + (es[0] + tail) && s[1..] == es[0] + tail;
    NewlineWordStops(ps, tail);
  }

  lemma {:induction false} NewlineWordStops(ps: seq<Text>, tail: Text)
    requires !NoNewlines(ps) && tail == Spaced(EscapedAll(ps, true)[1..])
    ensures Scan(Escaped(ps[0], true) + tail, true, []).bad
    decreases |ps|, 0
  {
    if Without(ps[0], NEWLINE) {
      ScanEscaped(ps[0], true, tail, []);
      NewlinesLater(ps);
      assert EscapedAll(ps, true)[1..] == EscapedAll(ps[1..], true);
      NewlineParamStops(ps[1..], [] + ps[0]);
    } else {
      NewlineStops(ps[0], tail, []);
    }
  }

  /** In the older form a command is read back exactly when no parameter has a newline in it. */
  lemma NmdcPrintedParses(c: Cmd)
    requires c.kind == CLIENT && |c.code| == 3 && Without(c.code, 0) && 0 <= c.to < SIDS
    ensures var r := Parsed(Fresh(), Line(c, [], 0, true), true);
            (r.status == Okay <==> NoNewlines(c.params)) && (r.status == Okay ==> r.cmd == Back(c, 0))
  {
    var es := EscapedAll(c.params, true);
    assert HeadWords(c, [], 0) + es == es;
    BodyOf(c, es, true);
    NmdcFilled(c, Slots(Cmd(CLIENT, c.code, 0, 0, []), true, false, false));
  }

  lemma NmdcFilled(c: Cmd, p: Slots)
    requires c.kind == CLIENT && p == Slots(Cmd(CLIENT, c.code, 0, 0, []), true, false, false)
    ensures var es := EscapedAll(c.params, true);
            var f := Filled(p, Scan(if es == [] then [] else es[0] + Spaced(es[1..]), true, []));
            (f.status == Okay <==> NoNewlines(c.params)) && (f.status == Okay ==> f.slots.cmd == Back(c, 0))
  {
    var es := EscapedAll(c.params, true);
    if NoNewlines(c.params) {
      ParamsRead(c.params, true);
      ScanWords(es, c.params, true);
      FilledParams(p, c.params);
      assert [] + Trimmed(c.params) == Trimmed(c.params);
    } else {
      NewlineWordStops(c.params, Spaced(es[1..]));
      BadFilled(p, Scan(es[0] + Spaced(es[1..]), true, []));
    }
  }

  lemma BadFilled(p: Slots, w: Words)
    requires Missing(p) == Okay && w.bad
    ensures Filled(p, w).status == EscapeAtEol
  {
    PlaceParams(p, w.done);
  }

  // ---- many commands ----

  datatype Message = Message(cmd: Cmd, features: Text, sid: int)

  /** A message that parses back and has no newline outside its parameters. */
  ghost predicate Sendable(m: Message) {
    Printable(m.cmd, m.features, m.sid) && Parses(m.cmd, m.features, m.sid) && Without(m.cmd.code, NEWLINE) &&
    Without(FromSid(m.sid), NEWLINE) && Without(FromSid(m.cmd.to), NEWLINE) && Without(m.features, NEWLINE)
  }

  ghost function LineOf(m: Message): Text
    requires Sendable(m)
  {
    Line(m.cmd, m.features, m.sid, false)
  }

  ghost predicate AllWithout(ws: seq<Text>, c: int) { forall i {:trigger ws[i]} :: 0 <= i < |ws| ==> Without(ws[i], c) }

  lemma {:induction false} SpacedWithout(ws: seq<Text>)
    requires AllWithout(ws, NEWLINE)
    ensures Without(Spaced(ws), NEWLINE)
    decreases |ws|
  {
    if ws != [] { SpacedWithout(ws[1..]); }
  }

  /** A printed command is one line. */
  lemma LineIsOneLine(m: Message)
    requires Sendable(m)
    ensures Without(LineOf(m), NEWLINE)
  {
    var c := m.cmd;
    CodeKept(c.code);
    var hw, es := HeadWords(c, m.features, m.sid), EscapedAll(c.params, false);
    assert AllWithout(hw, NEWLINE);
    forall i | 0 <= i < |es| ensures Without(es[i], NEWLINE) { EscapedHasNoBreaks(c.params[i]); }
    SpacedWithout(hw + es);
  }

  ghost predicate AllSendable(ms: seq<Message>, maxLine: nat) {
    forall i {:trigger ms[i]} :: 0 <= i < |ms| ==> Sendable(ms[i]) && |LineOf(ms[i])| <= maxLine
  }

  ghost function Sent(ms: seq<Message>, maxLine: nat): Text
    requires AllSendable(ms, maxLine)
    decreases |ms|
  {
    if ms == [] then [] else LineOf(ms[0]) + [NEWLINE] + Sent(ms[1..], maxLine)
  }

  ghost function Lines(ms: seq<Message>, maxLine: nat): (r: seq<Framing.Event>)
    requires AllSendable(ms, maxLine)
    ensures |r| == |ms| && forall i {:trigger ms[i]} {:trigger r[i]} :: 0 <= i < |ms| ==>
      r[i] == Framing.Event.Line(LineOf(ms[i]))
    decreases |ms|
  {
    if ms == [] then [] else [Framing.Event.Line(LineOf(ms[0]))] + Lines(ms[1..], maxLine)
  }

  /** Commands sent one after the other come out of the socket as their lines, in order. */
  lemma {:induction false} SentComesAsLines(k: Framing.Rules, ms: seq<Message>, events: seq<Framing.Event>)
    requires AllSendable(ms, k.maxLine) && k.sep == NEWLINE
      && forall ev {:trigger (k.decide)(ev)} :: (k.decide)(ev) == Framing.LineMode
    ensures Framing.FeedAll(k, Framing.Frame(Framing.LineMode, [], events, false), Sent(ms, k.maxLine)) ==
            Framing.Frame(Framing.LineMode, [], events + Lines(ms, k.maxLine), false)
    decreases |ms|
  {
    if ms == [] {
      assert events + [] == events;
    } else {
      var line := LineOf(ms[0]);
      LineIsOneLine(ms[0]);
      Framing.FeedLine(k, events, line, Sent(ms[1..], k.maxLine));
      SentComesAsLines(k, ms[1..], events + [Framing.Event.Line(line)]);
      assert events + [Framing.Event.Line(line)] + Lines(ms[1..], k.maxLine) == events + Lines(ms, k.maxLine);
    }
  }

  /** And each line parses to the command that was sent. */
  lemma SentParsesBack(k: Framing.Rules, ms: seq<Message>)
    requires AllSendable(ms, k.maxLine) && k.sep == NEWLINE
      && forall ev {:trigger (k.decide)(ev)} :: (k.decide)(ev) == Framing.LineMode
    ensures var got := Framing.FeedAll(k, Framing.Start(), Sent(ms, k.maxLine)).events;
            |got| == |ms| && forall i {:trigger ms[i]} :: 0 <= i < |ms| ==>
              got[i].Line? && Parsed(Fresh(), got[i].text, false) == Outcome(Okay, Back(ms[i].cmd, ms[i].sid))
  {
    SentComesAsLines(k, ms, []);
    var got := Lines(ms, k.maxLine);
    assert [] + got == got;
    forall i | 0 <= i < |ms|
      ensures got[i].Line? && Parsed(Fresh(), got[i].text, false) == Outcome(Okay, Back(ms[i].cmd, ms[i].sid))
    {
      PrintedParses(ms[i].cmd, ms[i].features, ms[i].sid);
    }
  }

  // ---- cases that do not come back ----

  /** A $ADC command with a newline in its parameter, an F command with neither features nor parameters, and one whose
      last parameter is empty, which comes back without it. */
  lemma DoNotComeBack(code: Text, sid: int)
    requires |code| == 3 && Without(code, 0) && 0 <= sid < SIDS && GoodSid(sid)
    ensures Parsed(Fresh(), Line(Cmd(CLIENT, code, 0, 0, [[NEWLINE]]), [], 0, true), true).status != Okay
    ensures Parsed(Fresh(), Line(Cmd(FEATURE, code, sid, 0, []), [], sid, false), false).status != Okay
    ensures Parsed(Fresh(), Line(Cmd(BROADCAST, code, sid, 0, [[]]), [], sid, false), false) ==
            Outcome(Okay, Cmd(BROADCAST, code, sid, 0, []))
  {
    var c := Cmd(CLIENT, code, 0, 0, [[NEWLINE]]);
    assert c.params[0][0] == NEWLINE;
    NmdcPrintedParses(c);
    PrintedParses(Cmd(FEATURE, code, sid, 0, []), [], sid);
    var e := Cmd(BROADCAST, code, sid, 0, [[]]);
    PrintedParses(e, [], sid);
    assert e.params[..0] == [];
  }

  // ---- some lines, character by character ----

  function Chars(s: string): (t: Text)
    ensures |t| == |s| && forall i {:trigger t[i]} :: 0 <= i < |s| ==> t[i] == s[i] as int
  {
    seq(|s|, i requires 0 <= i < |s| => s[i] as int)
  }

  const SID_A := 0x41414141
  const SID_B := 0x42424242

  lemma SidsAre()
    ensures FromSid(SID_A) == Chars("AAAA") && FromSid(SID_B) == Chars("BBBB") && GoodSid(SID_A) && GoodSid(SID_B)
  {
    assert FromSid(SID_A) == Chars("AAAA");
    assert FromSid(SID_B) == Chars("BBBB");
  }

  lemma CodeIs()
    ensures CString(Chars("MSG")) == Chars("MSG") && Without(Chars("MSG"), 0)
  {
    var t := Chars("MSG");
    assert t[1..] == Chars("SG") && Chars("SG")[1..] == Chars("G") && Chars("G")[1..] == [];
    assert [t[0]] + t[1..] == t && [t[1]] + Chars("G") == Chars("SG") && [t[2]] + [] == Chars("G");
  }

  /** Two parameters with a space, a newline and a backslash in them. */
  function Hard(): seq<Text> { [Chars("a b"), Chars("\n\\")] }

  lemma HardEscaped(older: bool)
    ensures EscapedAll(Hard(), older) ==
      if older then [Chars("a\\ b"), Chars("\\\n\\\\")] else [Chars("a\\sb"), Chars("\\n\\\\")]
  {
    var p, q := Chars("a b"), Chars("\n\\");
    EscapedSpelled(p, older);
    EscapedSpelled(q, older);
    assert p[1..] == Chars(" b") && p[1..][1..] == Chars("b") && p[1..][1..][1..] == [];
    assert q[1..] == Chars("\\") && q[1..][1..] == [];
    assert Spelled(Chars("b"), older) == Chars("b") + [];
    assert Spelled(Chars(" b"), older) == Chars(if older then "\\ " else "\\s") + Chars("b");
    assert Spelled(Chars("\\"), older) == Chars("\\\\") + [];
    assert Escaped(p, older) == Chars("a") + (Chars(if older then "\\ " else "\\s") + Chars("b"));
    assert Escaped(q, older) == Chars(if older then "\\\n" else "\\n") + Chars("\\\\");
    var e := EscapedAll(Hard(), older);
    assert e == [Escaped(p, older), Escaped(q, older)];
    assert Escaped(p, older) == Chars(if older then "a\\ b" else "a\\sb");
    assert Escaped(q, older) == Chars(if older then "\\\n\\\\" else "\\n\\\\");
  }

  /** A direct message from AAAA to BBBB. */
  lemma DirectLine()
    ensures var c := Cmd(DIRECT, Chars("MSG"), 0, SID_B, Hard());
      var line :=
        Chars("DMSG") + (Chars(" AAAA") + (Chars(" BBBB") + (Chars(" a\\sb") + Chars(" \\n\\\\"))));
      Line(c, [], SID_A, false) == line
        && Parsed(Fresh(), line, false) == Outcome(Okay, Cmd('D' as int, Chars("MSG"), SID_A, SID_B, Hard()))
  {
    var c := Cmd(DIRECT, Chars("MSG"), 0, SID_B, Hard());
    SidsAre();
    CodeIs();
    HardEscaped(false);
    FourWords(Chars("AAAA"), Chars("BBBB"), Chars("a\\sb"), Chars("\\n\\\\"));
    assert HeadWords(c, [], SID_A) + EscapedAll(c.params, false) ==
      [Chars("AAAA"), Chars("BBBB"), Chars("a\\sb"), Chars("\\n\\\\")];
    DirectText();
    PrintedParses(c, [], SID_A);
  }

  lemma FourWords(a: Text, b: Text, c: Text, d: Text)
    ensures Spaced([a, b, c, d]) == [SPACE] + a + ([SPACE] + b + ([SPACE] + c + ([SPACE] + d + [])))
  {
    WordMore(d, []);
    WordMore(c, [d]);
    WordMore(b, [c, d]);
    WordMore(a, [b, c, d]);
    assert [c] + [d] == [c, d] && [b] + [c, d] == [b, c, d] && [a] + [b, c, d] == [a, b, c, d];
  }

  lemma WordMore(w: Text, ws: seq<Text>)
    ensures Spaced([w] + ws) == [SPACE] + w + Spaced(ws)
  {
    assert ([w] + ws)[1..] == ws;
  }

  lemma DirectText()
    ensures [DIRECT] + Chars("MSG") + ([SPACE] + Chars("AAAA") + ([SPACE] + Chars("BBBB") + ([SPACE] + Chars("a\\sb")
      + ([SPACE] + Chars("\\n\\\\") + [])))) ==
      Chars("DMSG") + (Chars(" AAAA") + (Chars(" BBBB") + (Chars(" a\\sb") + Chars(" \\n\\\\"))))
  {
    assert [SPACE] + Chars("\\n\\\\") + [] == Chars(" \\n\\\\");
    assert [SPACE] + Chars("a\\sb") == Chars(" a\\sb");
    assert [SPACE] + Chars("BBBB") == Chars(" BBBB");
    assert [SPACE] + Chars("AAAA") == Chars(" AAAA");
    assert [DIRECT] + Chars("MSG") == Chars("DMSG");
  }

  /** A command in the $ADC form, with its older escaping. */
  lemma OlderLine()
    ensures var c, line := Cmd(CLIENT, Chars("MSG"), 0, 0, [Chars("a b")]), Chars("$ADCMSG") + Chars(" a\\ b");
      Line(c, [], 0, true) == line && Parsed(Fresh(), line, true) == Outcome(Okay, c)
  {
    OlderText();
    CodeIs();
    assert Chars("a b")[0] != NEWLINE && Chars("a b")[1] != NEWLINE && Chars("a b")[2] != NEWLINE;
    NmdcPrintedParses(Cmd(CLIENT, Chars("MSG"), 0, 0, [Chars("a b")]));
  }

  lemma OlderText()
    ensures Line(Cmd(CLIENT, Chars("MSG"), 0, 0, [Chars("a b")]), [], 0, true) == Chars("$ADCMSG") + Chars(" a\\ b")
  {
    var c := Cmd(CLIENT, Chars("MSG"), 0, 0, [Chars("a b")]);
    CodeIs();
    OneEscaped();
    assert HeadWords(c, [], 0) + [Chars("a\\ b")] == [Chars("a\\ b")];
    OneSpaced();
    assert [36, 65, 68, 67] + Chars("MSG") == Chars("$ADCMSG");
  }

  lemma OneEscaped()
    ensures EscapedAll([Chars("a b")], true) == [Chars("a\\ b")]
  {
    HardEscaped(true);
    assert EscapedAll(Hard(), true)[0] == Escaped(Chars("a b"), true);
  }

  lemma OneSpaced()
    ensures Spaced([Chars("a\\ b")]) == Chars(" a\\ b")
  {
    WordMore(Chars("a\\ b"), []);
    assert [Chars("a\\ b")] + [] == [Chars("a\\ b")];
    assert [SPACE] + Chars("a\\ b") + [] == Chars(" a\\ b");
  }
}
