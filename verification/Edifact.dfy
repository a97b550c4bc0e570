/** The EDIFACT printer and parser of src/models/erp_connector.py. The separators ' + : are the
    default service characters of ISO 9735-1. */
module Edifact {
  import opened Common

  datatype MessageType = ORDERS | ORDINR | ORDRESP | DESADV | DELJRN | INVOIC | CUSORD

  /** A message; the payload dictionary as its items in order, values as formatted. */
  datatype Message = Message(msgType: MessageType, sender: string, receiver: string, payload: seq<(string, string)>)

  datatype Segment = Segment(tag: string, elements: seq<string>)

  datatype Parsed = Parsed(msgType: MessageType, sender: string, receiver: string, segments: seq<Segment>)

  function TypeName(t: MessageType): string {
    match t
    case ORDERS => "ORDERS" case ORDINR => "ORDINR" case ORDRESP => "ORDRESP" case DESADV => "DESADV"
    case DELJRN => "DELJRN" case INVOIC => "INVOIC" case CUSORD => "CUSORD"
  }

  function TypeOfName(s: string): Option<MessageType> {
    if s == "ORDERS" then Some(ORDERS) else if s == "ORDINR" then Some(ORDINR) else if s == "ORDRESP" then Some(ORDRESP)
    else if s == "DESADV" then Some(DESADV) else if s == "DELJRN" then Some(DELJRN) else if s == "INVOIC" then Some(INVOIC)
    else if s == "CUSORD" then Some(CUSORD) else None
  }

  // ---- Text operations ---------------------------------------------------------------

  function Split(s: string, c: char): (r: seq<string>)
    ensures r != []
  {
    if s == [] then [[]]
    else
      var r := Split(s[..|s| - 1], c);
      if s[|s| - 1] == c then r + [[]] else r[..|r| - 1] + [r[|r| - 1] + [s[|s| - 1]]]
  }

  function Join(parts: seq<string>, c: char): string {
    if parts == [] then []
    else if |parts| == 1 then parts[0]
    else Join(parts[..|parts| - 1], c) + [c] + parts[|parts| - 1]
  }

  /** The characters str.strip removes. */
  predicate IsSpace(c: char) {
    '\t' <= c <= '\r' || '\U{1c}' <= c <= ' ' || c == '\U{85}' || c == '\U{a0}' || c == '\U{1680}' ||
    '\U{2000}' <= c <= '\U{200a}' || c == '\U{2028}' || c == '\U{2029}' || c == '\U{202f}' || c == '\U{205f}' || c == '\U{3000}'
  }

  function StripLeft(s: string): string {
    if s != [] && IsSpace(s[0]) then StripLeft(s[1..]) else s
  }

  function StripRight(s: string): string {
    if s != [] && IsSpace(s[|s| - 1]) then StripRight(s[..|s| - 1]) else s
  }

  function Strip(s: string): string {
    StripRight(StripLeft(s))
  }

  predicate NoEdgeSpace(s: string) {
    s == [] || (!IsSpace(s[0]) && !IsSpace(s[|s| - 1]))
  }

  // ---- Parsing -------------------------------------------------------------------------

  /** The stripped, non-empty pieces. */
  function Texts(pieces: seq<string>): seq<string> {
    if pieces == [] then []
    else
      var t := Strip(pieces[|pieces| - 1]);
      Texts(pieces[..|pieces| - 1]) + (if t == [] then [] else [t])
  }

  function SegmentTexts(raw: string): seq<string> {
    Texts(Split(Strip(raw), '\''))
  }

  function ToSegment(text: string): Segment {
    var parts := Split(text, '+');
    Segment(parts[0], parts[1..])
  }

  function ToSegments(texts: seq<string>): (r: seq<Segment>)
    ensures |r| == |texts| && forall i | 0 <= i < |r| :: r[i] == ToSegment(texts[i])
  {
    seq(|texts|, i requires 0 <= i < |texts| => ToSegment(texts[i]))
  }

  /** The type after reading one more segment: only a UNH segment naming a known type sets it. */
  function NextType(t: MessageType, s: Segment): MessageType {
    if s.tag == "UNH" then
      match TypeOfName(if |s.elements| > 1 then Split(s.elements[1], ':')[0] else "ORDERS")
      case Some(u) => u
      case None => t
    else t
  }

  function TypeOf(segments: seq<Segment>): MessageType {
    if segments == [] then ORDERS else NextType(TypeOf(segments[..|segments| - 1]), segments[|segments| - 1])
  }

  // ---- Printing --------------------------------------------------------------------------

  /** The payload items that are printed. */
  function Printed(payload: seq<(string, string)>): seq<(string, string)> {
    if payload == [] then []
    else
      Printed(payload[..|payload| - 1]) +
      (if payload[|payload| - 1].0 == "segments" then [] else [payload[|payload| - 1]])
  }

  function PairText(p: (string, string)): string {
    p.0 + "+" + p.1
  }

  function PairTexts(pairs: seq<(string, string)>): (r: seq<string>)
    ensures |r| == |pairs| && forall i | 0 <= i < |r| :: r[i] == PairText(pairs[i])
  {
    seq(|pairs|, i requires 0 <= i < |pairs| => PairText(pairs[i]))
  }

  function HeaderText(m: Message): string {
    "UNB+UNOA:2+" + m.sender + "+" + m.receiver
  }

  function TypeText(m: Message): string {
    "UNH+1+" + TypeName(m.msgType) + ":D:2.1:UN:EDIFACT"
  }

  function MessageTexts(m: Message): seq<string> {
    [HeaderText(m), TypeText(m)] + PairTexts(Printed(m.payload)) + ["UNT+2+1", "UNZ+1+1"]
  }

  function Print(m: Message): string {
    Join(MessageTexts(m), '\'') + "'"
  }

  /** Every payload item but those with the key segments, each with a terminator. */
  function ItemsText(payload: seq<(string, string)>): string {
    if payload == [] then []
    else
      var (key, value) := payload[|payload| - 1];
      ItemsText(payload[..|payload| - 1]) + (if key == "segments" then [] else key + "+" + value + "'")
  }

  /** The texts with a terminator after each. */
  function Terminated(texts: seq<string>): string {
    if texts == [] then [] else Terminated(texts[..|texts| - 1]) + (texts[|texts| - 1] + "'")
  }

  lemma TerminatedNext(texts: seq<string>, text: string)
    ensures Terminated(texts + [text]) == Terminated(texts) + (text + "'")
  {
    assert (texts + [text])[..|texts|] == texts;
  }

  lemma {:induction false} JoinTerminated(texts: seq<string>)
    requires texts != []
    ensures Join(texts, '\'') + "'" == Terminated(texts)
  {
    if |texts| > 1 {
      JoinTerminated(texts[..|texts| - 1]);
    } else {
      assert Terminated(texts[..0]) == [];
    }
  }

  lemma TerminatedGrow(a: seq<string>, b: seq<string>, x: string)
    requires Terminated(a + b) == Terminated(a) + Terminated(b)
    ensures Terminated(a + (b + [x])) == Terminated(a) + Terminated(b + [x])
  {
    TerminatedNext(a + b, x);
    TerminatedNext(b, x);
    Associates(a, b, [x]);
    Associates(Terminated(a), Terminated(b), x + "'");
  }

  lemma {:induction false} TerminatedConcat(a: seq<string>, b: seq<string>)
    ensures Terminated(a + b) == Terminated(a) + Terminated(b)
  {
    if b == [] {
      assert a + b == a;
    } else {
      var init, last := b[..|b| - 1], b[|b| - 1];
      assert b == init + [last];
      TerminatedConcat(a, init);
      TerminatedGrow(a, init, last);
    }
  }

  lemma TerminatedOne(a: string)
    ensures Terminated([a]) == a + "'"
  {
    TerminatedNext([], a);
    assert [] + [a] == [a] && Terminated([]) == [];
  }

  lemma TerminatedTwo(a: string, b: string)
    ensures Terminated([a, b]) == (a + "'") + (b + "'")
  {
    TerminatedOne(a);
    TerminatedNext([a], b);
    assert [a] + [b] == [a, b];
  }

  lemma {:induction false} ItemsAreTerminated(payload: seq<(string, string)>)
    ensures Terminated(PairTexts(Printed(payload))) == ItemsText(payload)
  {
    if payload != [] {
      var init, p := payload[..|payload| - 1], payload[|payload| - 1];
      ItemsAreTerminated(init);
      if p.0 == "segments" {
        assert Printed(payload) == Printed(init);
      } else {
        assert PairTexts(Printed(init) + [p]) == PairTexts(Printed(init)) + [PairText(p)];
        TerminatedNext(PairTexts(Printed(init)), PairText(p));
      }
    }
  }

  /** The printed text, written out. */
  lemma PrintIsConcatenation(m: Message)
    ensures Print(m) == ((HeaderText(m) + "'") + (TypeText(m) + "'")) + ItemsText(m.payload) + (("UNT+2+1" + "'") + ("UNZ+1+1" + "'"))
  {
    var head, items, tail := [HeaderText(m), TypeText(m)], PairTexts(Printed(m.payload)), ["UNT+2+1", "UNZ+1+1"];
    JoinTerminated(MessageTexts(m));
    TerminatedConcat(head + items, tail);
    TerminatedConcat(head, items);
    TerminatedTwo(HeaderText(m), TypeText(m));
    TerminatedTwo("UNT+2+1", "UNZ+1+1");
    ItemsAreTerminated(m.payload);
  }

  class OracleEDIConnector {
    const tradingPartnerId: Option<string>

    constructor (tradingPartnerId: Option<string>)
      ensures this.tradingPartnerId == tradingPartnerId
    {
      this.tradingPartnerId := tradingPartnerId;
    }

    /** The type bookkeeping for one segment. */
    method ReadType(segment: Segment, msgType: MessageType) returns (t: MessageType)
      ensures t == NextType(msgType, segment)
    {
      t := msgType;
      if segment.tag == "UNH" {
        var name := if |segment.elements| > 1 then Split(segment.elements[1], ':')[0] else "ORDERS";
        var known := TypeOfName(name);
        if known.Some? {
          t := known.value;
        }
      }
    }

    method Parse(rawEdifact: string) returns (r: Parsed)
      ensures r.segments == ToSegments(SegmentTexts(rawEdifact)) && r.msgType == TypeOf(r.segments)
      ensures r.receiver == "WMS"
      ensures r.sender == if tradingPartnerId.Some? && tradingPartnerId.value != "" then tradingPartnerId.value else "EDI_TRADING"
    {
      var texts := SegmentTexts(rawEdifact);
      var segments: seq<Segment> := [];
      var msgType := ORDERS;
      for i := 0 to |texts|
        invariant segments == ToSegments(texts[..i]) && msgType == TypeOf(segments)
      {
        var parts := Split(texts[i], '+');
        var tag, elements := parts[0], parts[1..];
        var segment := Segment(tag, elements);
        msgType := ReadType(segment, msgType);
        segments := segments + [segment];
      }
      assert texts[..|texts|] == texts;
      var sender := if tradingPartnerId.Some? && tradingPartnerId.value != "" then tradingPartnerId.value else "EDI_TRADING";
      r := Parsed(msgType, sender, "WMS", segments);
    }

    method Serialize(m: Message) returns (text: string)
      ensures text == Print(m)
      ensures text == (("UNB+UNOA:2+" + m.sender + "+" + m.receiver + "'") + ("UNH+1+" + TypeName(m.msgType) + ":D:2.1:UN:EDIFACT" + "'")) +
                      ItemsText(m.payload) + (("UNT+2+1" + "'") + ("UNZ+1+1" + "'"))
    {
      var segments := ["UNB+UNOA:2+" + m.sender + "+" + m.receiver];
      segments := segments + ["UNH+1+" + TypeName(m.msgType) + ":D:2.1:UN:EDIFACT"];
      for i := 0 to |m.payload|
        invariant segments == [HeaderText(m), TypeText(m)] + PairTexts(Printed(m.payload[..i]))
      {
        var (key, value) := m.payload[i];
        assert m.payload[..i + 1][..i] == m.payload[..i];
        if key == "segments" {
          continue;
        }
        assert PairTexts(Printed(m.payload[..i]) + [(key, value)]) == PairTexts(Printed(m.payload[..i])) + [PairText((key, value))];
        segments := segments + [key + "+" + value];
      }
      assert m.payload[..|m.payload|] == m.payload;
      segments := segments + ["UNT+2+1"];
      segments := segments + ["UNZ+1+1"];
      assert segments == MessageTexts(m);
      PrintIsConcatenation(m);
      text := Join(segments, '\'') + "'";
    }
  }

  // ---- Splitting and joining are inverse ----------------------------------------------------

  lemma {:induction false} SplitClean(s: string, c: char)
    requires c !in s
    ensures Split(s, c) == [s]
  {
    if s != [] {
      SplitClean(s[..|s| - 1], c);
      assert s == s[..|s| - 1] + [s[|s| - 1]];
    }
  }

  lemma SplitNext(s: string, x: char, c: char)
    ensures Split(s + [x], c) ==
            var r := Split(s, c); if x == c then r + [[]] else r[..|r| - 1] + [r[|r| - 1] + [x]]
  {
    assert (s + [x])[..|s|] == s;
  }

  lemma SplitStep(before: seq<string>, s: string, t: string, x: char, c: char)
    requires Split(s, c) == before + Split(t, c)
    ensures Split(s + [x], c) == before + Split(t + [x], c)
  {
    SplitNext(s, x, c);
    SplitNext(t, x, c);
    ReplaceLast(before, Split(t, c), x);
    Associates(before, Split(t, c), [[]]);
  }

  lemma Regroup(a: string, c: char, b: string)
    requires b != []
    ensures a + [c] + b == (a + [c] + b[..|b| - 1]) + [b[|b| - 1]] && b == b[..|b| - 1] + [b[|b| - 1]]
  {
  }

  lemma {:induction false} SplitConcat(a: string, c: char, b: string)
    ensures Split(a + [c] + b, c) == Split(a, c) + Split(b, c)
  {
    if b == [] {
      assert a + [c] + b == a + [c];
      SplitNext(a, c, c);
    } else {
      var b', x := b[..|b| - 1], b[|b| - 1];
      SplitConcat(a, c, b');
      SplitStep(Split(a, c), a + [c] + b', b', x, c);
      Regroup(a, c, b);
    }
  }

  lemma ReplaceLast(a: seq<string>, b: seq<string>, x: char)
    requires b != []
    ensures var r := a + b; r[..|r| - 1] + [r[|r| - 1] + [x]] == a + (b[..|b| - 1] + [b[|b| - 1] + [x]])
  {
    assert (a + b)[..|a + b| - 1] == a + b[..|b| - 1];
  }

  lemma {:induction false} SplitPiecesClean(s: string, c: char, i: nat)
    requires i < |Split(s, c)|
    ensures c !in Split(s, c)[i]
    ensures forall x | x in Split(s, c)[i] :: x in s
  {
    if s != [] {
      var init := s[..|s| - 1];
      assert s == init + [s[|s| - 1]];
      var r := Split(init, c);
      if i < |r| {
        SplitPiecesClean(init, c, i);
      }
    }
  }

  lemma {:induction false} JoinSplit(s: string, c: char)
    ensures Join(Split(s, c), c) == s
  {
    if s != [] {
      var r, x := Split(s[..|s| - 1], c), s[|s| - 1];
      JoinSplit(s[..|s| - 1], c);
      if x == c {
        assert (r + [[]])[..|r|] == r;
      } else {
        var r' := r[..|r| - 1] + [r[|r| - 1] + [x]];
        assert r'[..|r'| - 1] == r[..|r| - 1];
      }
      assert s == s[..|s| - 1] + [x];
    }
  }

  lemma {:induction false} SplitJoin(parts: seq<string>, c: char)
    requires parts != [] && forall i | 0 <= i < |parts| :: c !in parts[i]
    ensures Split(Join(parts, c), c) == parts
  {
    var n := |parts| - 1;
    SplitClean(parts[n], c);
    if n > 0 {
      SplitJoin(parts[..n], c);
      SplitConcat(Join(parts[..n], c), c, parts[n]);
      assert parts == parts[..n] + [parts[n]];
    }
  }

  // ---- Stripping --------------------------------------------------------------------------------

  lemma StripStable(s: string)
    requires NoEdgeSpace(s)
    ensures Strip(s) == s
  {
  }

  lemma {:induction false} StripLeftFacts(s: string)
    ensures StripLeft(s) == [] || !IsSpace(StripLeft(s)[0])
    ensures forall x | x in StripLeft(s) :: x in s
  {
    if s != [] && IsSpace(s[0]) { StripLeftFacts(s[1..]); }
  }

  lemma {:induction false} StripRightFacts(s: string)
    ensures StripRight(s) == [] || !IsSpace(StripRight(s)[|StripRight(s)| - 1])
    ensures StripRight(s) <= s
  {
    if s != [] && IsSpace(s[|s| - 1]) { StripRightFacts(s[..|s| - 1]); }
  }

  lemma StripFacts(s: string)
    ensures NoEdgeSpace(Strip(s)) && forall x | x in Strip(s) :: x in s
  {
    StripLeftFacts(s);
    StripRightFacts(StripLeft(s));
  }

  predicate AllSpace(s: string) {
    forall i | 0 <= i < |s| :: IsSpace(s[i])
  }

  lemma {:induction false} StripLeftDrops(s: string) returns (a: string)
    ensures s == a + StripLeft(s) && AllSpace(a)
  {
    if s != [] && IsSpace(s[0]) {
      a := StripLeftDrops(s[1..]);
      assert s == [s[0]] + s[1..];
      a := [s[0]] + a;
    } else {
      a := [];
    }
  }

  lemma {:induction false} StripRightDrops(s: string) returns (b: string)
    ensures s == StripRight(s) + b && AllSpace(b)
  {
    if s != [] && IsSpace(s[|s| - 1]) {
      b := StripRightDrops(s[..|s| - 1]);
      assert s == s[..|s| - 1] + [s[|s| - 1]];
      b := b + [s[|s| - 1]];
    } else {
      b := [];
    }
  }

  /** Stripping takes whitespace off both ends, all of it and nothing else. */
  lemma StripMeans(s: string) returns (a: string, b: string)
    ensures s == a + Strip(s) + b && AllSpace(a) && AllSpace(b) && NoEdgeSpace(Strip(s))
  {
    StripFacts(s);
    a := StripLeftDrops(s);
    b := StripRightDrops(StripLeft(s));
  }

  // ---- What a text must satisfy to survive the trip -----------------------------------------------

  predicate Whole(text: string) {
    text != [] && '\'' !in text && NoEdgeSpace(text)
  }

  lemma {:induction false} TextsOfWhole(texts: seq<string>)
    requires forall i | 0 <= i < |texts| :: Whole(texts[i])
    ensures Texts(texts) == texts
  {
    if texts != [] {
      TextsOfWhole(texts[..|texts| - 1]);
      StripStable(texts[|texts| - 1]);
      assert texts == texts[..|texts| - 1] + [texts[|texts| - 1]];
    }
  }

  lemma SplitTerminated(texts: seq<string>)
    requires texts != [] && forall i | 0 <= i < |texts| :: '\'' !in texts[i]
    ensures Split(Join(texts, '\'') + ['\''], '\'') == texts + [[]]
  {
    SplitJoin(texts, '\'');
    SplitNext(Join(texts, '\''), '\'', '\'');
  }

  lemma TextsTerminated(texts: seq<string>)
    requires forall i | 0 <= i < |texts| :: Whole(texts[i])
    ensures Texts(texts + [[]]) == texts
  {
    TextsOfWhole(texts);
    TextsNext(texts, []);
    assert Strip([]) == [];
  }

  lemma TextsNext(pieces: seq<string>, piece: string)
    ensures Texts(pieces + [piece]) == Texts(pieces) + if Strip(piece) == [] then [] else [Strip(piece)]
  {
    assert (pieces + [piece])[..|pieces|] == pieces;
  }

  /** Segments without quotes and edge whitespace come back one for one. */
  lemma WholeTextsReturn(texts: seq<string>)
    requires texts != [] && forall i | 0 <= i < |texts| :: Whole(texts[i])
    ensures SegmentTexts(Join(texts, '\'') + "'") == texts
  {
    var raw := Join(texts, '\'') + ['\''];
    SplitTerminated(texts);
    TextsTerminated(texts);
    JoinFirst(texts);
    StripStable(raw);
  }

  lemma {:induction false} JoinFirst(texts: seq<string>)
    requires texts != [] && texts[0] != []
    ensures Join(texts, '\'') != [] && Join(texts, '\'')[0] == texts[0][0]
  {
    if |texts| > 1 { JoinFirst(texts[..|texts| - 1]); }
  }

  /** Whatever is parsed, every segment text is whole. */
  lemma {:induction false} ParsedTextsAreWhole(pieces: seq<string>, i: nat)
    requires forall j | 0 <= j < |pieces| :: '\'' !in pieces[j]
    requires i < |Texts(pieces)|
    ensures Whole(Texts(pieces)[i])
  {
    var init := pieces[..|pieces| - 1];
    StripFacts(pieces[|pieces| - 1]);
    if i < |Texts(init)| {
      ParsedTextsAreWhole(init, i);
    }
  }

  lemma SegmentTextsAreWhole(raw: string, i: nat)
    requires i < |SegmentTexts(raw)|
    ensures Whole(SegmentTexts(raw)[i])
  {
    var pieces := Split(Strip(raw), '\'');
    forall j | 0 <= j < |pieces| ensures '\'' !in pieces[j] {
      SplitPiecesClean(Strip(raw), '\'', j);
    }
    ParsedTextsAreWhole(pieces, i);
  }

  // ---- The round trip ---------------------------------------------------------------------------------

  /** What the receiving side reads off a segment: its tag and the re-joined elements. */
  function PairOf(s: Segment): (string, string) {
    (s.tag, Join(s.elements, '+'))
  }

  /** The parsed segments give back header and payload: the first carries sender and receiver, and
      between the second and the last two stand the printed payload items in order. */
  ghost predicate Recovers(m: Message, segments: seq<Segment>) {
    var pairs := Printed(m.payload);
    |segments| == |pairs| + 4 &&
    segments[0] == Segment("UNB", ["UNOA:2", m.sender, m.receiver]) &&
    forall i | 0 <= i < |pairs| :: segments[i + 2].elements != [] && PairOf(segments[i + 2]) == pairs[i]
  }

  /** Header fields without separators; keys without separators, values without quotes; no
      whitespace at the edge of a segment. */
  ghost predicate Transmittable(m: Message) {
    '+' !in m.sender && '+' !in m.receiver && Whole(HeaderText(m)) &&
    forall i | 0 <= i < |Printed(m.payload)| :: '+' !in Printed(m.payload)[i].0 && Whole(PairText(Printed(m.payload)[i]))
  }

  lemma TypeTextFacts(t: MessageType)
    ensures '+' !in TypeName(t) && ':' !in TypeName(t) && '\'' !in TypeName(t)
    ensures TypeOfName(TypeName(t)) == Some(t)
  {
  }

  lemma PairSegment(p: (string, string))
    requires '+' !in p.0
    ensures ToSegment(PairText(p)) == Segment(p.0, Split(p.1, '+')) && PairOf(ToSegment(PairText(p))) == p
  {
    SplitClean(p.0, '+');
    SplitConcat(p.0, '+', p.1);
    assert PairText(p) == p.0 + ['+'] + p.1;
    JoinSplit(p.1, '+');
  }

  /** Elements without the separator come back one for one. */
  lemma SegmentOfParts(parts: seq<string>)
    requires parts != [] && forall i | 0 <= i < |parts| :: '+' !in parts[i]
    ensures ToSegment(Join(parts, '+')) == Segment(parts[0], parts[1..])
  {
    SplitJoin(parts, '+');
  }

  lemma JoinThree(a: string, b: string, c: string)
    ensures Join([a, b, c], '+') == a + "+" + b + "+" + c
  {
    assert [a, b, c][..2] == [a, b] && [a, b][..1] == [a];
    assert Join([a], '+') == a;
  }

  lemma JoinFour(a: string, b: string, c: string, d: string)
    ensures Join([a, b, c, d], '+') == a + "+" + b + "+" + c + "+" + d
  {
    assert [a, b, c, d][..3] == [a, b, c];
    JoinThree(a, b, c);
  }

  lemma HeaderSegment(m: Message)
    requires '+' !in m.sender && '+' !in m.receiver
    ensures ToSegment(HeaderText(m)) == Segment("UNB", ["UNOA:2", m.sender, m.receiver])
  {
    var parts := ["UNB", "UNOA:2", m.sender, m.receiver];
    SegmentOfParts(parts);
    JoinFour("UNB", "UNOA:2", m.sender, m.receiver);
    assert parts[1..] == ["UNOA:2", m.sender, m.receiver];
    assert "UNB" + "+" + "UNOA:2" + "+" == "UNB+UNOA:2+";
  }

  lemma FixedSegments()
    ensures ToSegment("UNT+2+1") == Segment("UNT", ["2", "1"]) && ToSegment("UNZ+1+1") == Segment("UNZ", ["1", "1"])
  {
    SegmentOfParts(["UNT", "2", "1"]);
    JoinThree("UNT", "2", "1");
    assert "UNT" + "+" + "2" + "+" + "1" == "UNT+2+1";
    assert ["UNT", "2", "1"][1..] == ["2", "1"];
    SegmentOfParts(["UNZ", "1", "1"]);
    JoinThree("UNZ", "1", "1");
    assert "UNZ" + "+" + "1" + "+" + "1" == "UNZ+1+1";
    assert ["UNZ", "1", "1"][1..] == ["1", "1"];
  }

  lemma FixedTags()
    ensures ToSegment("UNT+2+1").tag != "UNH" && ToSegment("UNZ+1+1").tag != "UNH"
  {
    FixedSegments();
  }

  /** The segments of a printed message, one by one. */
  lemma PrintedSegments(m: Message)
    requires Transmittable(m)
    ensures var segments, pairs := ToSegments(MessageTexts(m)), Printed(m.payload);
            |segments| == |pairs| + 4 &&
            segments[0] == Segment("UNB", ["UNOA:2", m.sender, m.receiver]) &&
            forall i | 0 <= i < |pairs| :: segments[i + 2] == Segment(pairs[i].0, Split(pairs[i].1, '+'))
  {
    var texts, pairs := MessageTexts(m), Printed(m.payload);
    HeaderSegment(m);
    forall i | 0 <= i < |pairs| ensures ToSegments(texts)[i + 2] == Segment(pairs[i].0, Split(pairs[i].1, '+')) {
      assert texts[i + 2] == PairText(pairs[i]);
      PairSegment(pairs[i]);
    }
  }

  /** For a transmittable message, the parser finds exactly the printed segments. */
  lemma PrintedTextsReturn(m: Message)
    requires Transmittable(m)
    ensures SegmentTexts(Print(m)) == MessageTexts(m)
  {
    WholeTextsReturn(MessageTexts(m));
  }

  lemma PrintedSegmentsRecover(m: Message, segments: seq<Segment>)
    requires Transmittable(m) && segments == ToSegments(MessageTexts(m))
    ensures Recovers(m, segments)
  {
    PrintedSegments(m);
    SegmentsRecover(m, segments, Printed(m.payload));
  }

  lemma SegmentsRecover(m: Message, segments: seq<Segment>, pairs: seq<(string, string)>)
    requires pairs == Printed(m.payload) && |segments| == |pairs| + 4
    requires segments[0] == Segment("UNB", ["UNOA:2", m.sender, m.receiver])
    requires forall i | 0 <= i < |pairs| :: segments[i + 2] == Segment(pairs[i].0, Split(pairs[i].1, '+'))
    ensures Recovers(m, segments)
  {
    forall i | 0 <= i < |pairs| ensures segments[i + 2].elements != [] && PairOf(segments[i + 2]) == pairs[i] {
      JoinSplit(pairs[i].1, '+');
    }
  }

  /** A segment's text is its tag and re-joined elements. */
  lemma SegmentGivesText(text: string)
    requires ToSegment(text).elements != []
    ensures PairText(PairOf(ToSegment(text))) == text && '+' !in ToSegment(text).tag
  {
    var parts := Split(text, '+');
    JoinSplit(text, '+');
    JoinTail(parts);
    SplitPiecesClean(text, '+', 0);
  }

  lemma {:induction false} JoinTail(parts: seq<string>)
    requires |parts| > 1
    ensures Join(parts, '+') == parts[0] + "+" + Join(parts[1..], '+')
  {
    if |parts| > 2 {
      var init := parts[..|parts| - 1];
      JoinTail(init);
      assert parts[1..][..|parts| - 2] == init[1..];
    }
  }

  lemma RecoveredPair(m: Message, i: nat)
    requires Recovers(m, ToSegments(SegmentTexts(Print(m)))) && i < |Printed(m.payload)|
    ensures '+' !in Printed(m.payload)[i].0 && Whole(PairText(Printed(m.payload)[i]))
  {
    var texts := SegmentTexts(Print(m));
    var segment := ToSegments(texts)[i + 2];
    assert segment.elements != [] && PairOf(segment) == Printed(m.payload)[i];
    SegmentGivesText(texts[i + 2]);
    SegmentTextsAreWhole(Print(m), i + 2);
  }

  /** A text whose elements are the header's is the header. */
  lemma TextIsHeader(text: string, m: Message)
    requires ToSegment(text) == Segment("UNB", ["UNOA:2", m.sender, m.receiver])
    ensures text == HeaderText(m) && '+' !in m.sender && '+' !in m.receiver
  {
    var parts := Split(text, '+');
    assert parts == ["UNB"] + parts[1..];
    assert parts == ["UNB", "UNOA:2", m.sender, m.receiver];
    SplitPiecesClean(text, '+', 2);
    SplitPiecesClean(text, '+', 3);
    JoinSplit(text, '+');
    JoinFour("UNB", "UNOA:2", m.sender, m.receiver);
    assert "UNB" + "+" + "UNOA:2" + "+" == "UNB+UNOA:2+";
  }

  /** Conversely, a message that comes back was transmittable. */
  lemma RecoveredIsTransmittable(m: Message)
    requires Recovers(m, ToSegments(SegmentTexts(Print(m))))
    ensures Transmittable(m)
  {
    var texts := SegmentTexts(Print(m));
    assert ToSegments(texts)[0] == ToSegment(texts[0]);
    TextIsHeader(texts[0], m);
    SegmentTextsAreWhole(Print(m), 0);
    forall i | 0 <= i < |Printed(m.payload)| ensures '+' !in Printed(m.payload)[i].0 && Whole(PairText(Printed(m.payload)[i])) {
      RecoveredPair(m, i);
    }
  }

  /** The round trip recovers sender, receiver and every payload item in order exactly for the
      transmittable messages. */
  lemma RoundTripIff(m: Message)
    ensures Recovers(m, ToSegments(SegmentTexts(Print(m)))) <==> Transmittable(m)
  {
    if Transmittable(m) {
      PrintedTextsReturn(m);
      PrintedSegmentsRecover(m, ToSegments(MessageTexts(m)));
    }
    if Recovers(m, ToSegments(SegmentTexts(Print(m)))) {
      RecoveredIsTransmittable(m);
    }
  }

  // ---- The message type -----------------------------------------------------------------------------------

  lemma TypeSegment(m: Message)
    ensures ToSegment(TypeText(m)).tag == "UNH" && forall t :: NextType(t, ToSegment(TypeText(m))) == m.msgType
  {
    TypeTextFacts(m.msgType);
    var name, rest := TypeName(m.msgType), "D:2.1:UN:EDIFACT";
    var last := name + [':'] + rest;
    assert '+' !in rest;
    SegmentOfParts(["UNH", "1", last]);
    JoinThree("UNH", "1", last);
    TypeTextParts(m);
    SplitClean(name, ':');
    SplitConcat(name, ':', rest);
    assert ["UNH", "1", last][1..] == ["1", last];
    assert Split(last, ':')[0] == name;
  }

  lemma TypeTextParts(m: Message)
    ensures TypeText(m) == "UNH" + "+" + "1" + "+" + (TypeName(m.msgType) + [':'] + "D:2.1:UN:EDIFACT")
  {
    assert "UNH" + "+" + "1" + "+" == "UNH+1+";
    assert [':'] + "D:2.1:UN:EDIFACT" == ":D:2.1:UN:EDIFACT";
  }

  // ---- Any message's text, piece by piece -----------------------------------------------------------------

  /** The segment texts one printed text falls into; a quote inside it divides it. */
  function Cut(text: string): seq<string> {
    Texts(Split(text, '\''))
  }

  /** The segment texts a list of printed texts falls into. */
  function Fragments(texts: seq<string>): seq<string> {
    if texts == [] then [] else Fragments(texts[..|texts| - 1]) + Cut(texts[|texts| - 1])
  }

  lemma FragmentsNext(texts: seq<string>, text: string)
    ensures Fragments(texts + [text]) == Fragments(texts) + Cut(text)
  {
    assert (texts + [text])[..|texts|] == texts;
  }

  lemma FragmentsGrow(a: seq<string>, b: seq<string>, x: string)
    requires Fragments(a + b) == Fragments(a) + Fragments(b)
    ensures Fragments(a + (b + [x])) == Fragments(a) + Fragments(b + [x])
  {
    FragmentsNext(a + b, x);
    FragmentsNext(b, x);
    Associates(a, b, [x]);
    Associates(Fragments(a), Fragments(b), Cut(x));
  }

  lemma {:induction false} FragmentsConcat(a: seq<string>, b: seq<string>)
    ensures Fragments(a + b) == Fragments(a) + Fragments(b)
  {
    if b == [] {
      assert a + b == a;
    } else {
      var init, last := b[..|b| - 1], b[|b| - 1];
      assert b == init + [last];
      FragmentsConcat(a, init);
      FragmentsGrow(a, init, last);
    }
  }

  lemma FragmentsOfOne(text: string)
    ensures Fragments([text]) == Cut(text)
  {
    FragmentsNext([], text);
    assert [] + [text] == [text];
  }

  lemma FragmentsOfTwo(a: string, b: string)
    ensures Fragments([a, b]) == Cut(a) + Cut(b)
  {
    FragmentsOfOne(a);
    FragmentsNext([a], b);
    assert [a] + [b] == [a, b];
  }

  lemma TextsGrow(a: seq<string>, b: seq<string>, x: string)
    requires Texts(a + b) == Texts(a) + Texts(b)
    ensures Texts(a + (b + [x])) == Texts(a) + Texts(b + [x])
  {
    TextsNext(a + b, x);
    TextsNext(b, x);
    Associates(a, b, [x]);
    Associates(Texts(a), Texts(b), if Strip(x) == [] then [] else [Strip(x)]);
  }

  lemma {:induction false} TextsConcat(a: seq<string>, b: seq<string>)
    ensures Texts(a + b) == Texts(a) + Texts(b)
  {
    if b == [] {
      assert a + b == a;
    } else {
      var init, last := b[..|b| - 1], b[|b| - 1];
      assert b == init + [last];
      TextsConcat(a, init);
      TextsGrow(a, init, last);
    }
  }

  lemma CutConcat(a: string, b: string)
    ensures Cut(a + ['\''] + b) == Cut(a) + Cut(b)
  {
    SplitConcat(a, '\'', b);
    TextsConcat(Split(a, '\''), Split(b, '\''));
  }

  lemma JoinNext(parts: seq<string>, part: string, c: char)
    requires parts != []
    ensures Join(parts + [part], c) == Join(parts, c) + [c] + part
  {
    assert (parts + [part])[..|parts|] == parts;
  }

  lemma {:induction false} CutOfJoined(texts: seq<string>)
    requires texts != []
    ensures Cut(Join(texts, '\'')) == Fragments(texts)
  {
    var init, last := texts[..|texts| - 1], texts[|texts| - 1];
    assert texts == init + [last];
    if init == [] {
      assert texts == [last];
      FragmentsOfOne(last);
    } else {
      CutOfJoined(init);
      CutConcat(Join(init, '\''), last);
      JoinNext(init, last, '\'');
      FragmentsNext(init, last);
    }
  }

  lemma CutTerminated(text: string)
    ensures Cut(text + ['\'']) == Cut(text)
  {
    SplitNext(text, '\'', '\'');
    TextsNext(Split(text, '\''), []);
    assert Strip([]) == [];
  }

  /** Every printed message is parsed into the fragments of its texts. */
  lemma PrintedFragments(m: Message)
    ensures SegmentTexts(Print(m)) == Fragments(MessageTexts(m))
  {
    var texts := MessageTexts(m);
    var joined := Join(texts, '\'');
    CutOfJoined(texts);
    CutTerminated(joined);
    JoinFirst(texts);
    StripStable(joined + ['\'']);
  }

  /** The type after reading more texts. */
  function TypeAfter(t: MessageType, texts: seq<string>): MessageType {
    if texts == [] then t else NextType(TypeAfter(t, texts[..|texts| - 1]), ToSegment(texts[|texts| - 1]))
  }

  lemma {:induction false} TypeOfIsTypeAfter(texts: seq<string>)
    ensures TypeOf(ToSegments(texts)) == TypeAfter(ORDERS, texts)
  {
    if texts != [] {
      TypeOfIsTypeAfter(texts[..|texts| - 1]);
      assert ToSegments(texts)[..|texts| - 1] == ToSegments(texts[..|texts| - 1]);
    }
  }

  lemma {:induction false} TypeAfterConcat(t: MessageType, a: seq<string>, b: seq<string>)
    ensures TypeAfter(t, a + b) == TypeAfter(TypeAfter(t, a), b)
  {
    if b == [] {
      assert a + b == a;
    } else {
      TypeAfterConcat(t, a, b[..|b| - 1]);
      assert (a + b)[..|a + b| - 1] == a + b[..|b| - 1];
    }
  }

  lemma TypeAfterOne(t: MessageType, text: string)
    ensures TypeAfter(t, [text]) == NextType(t, ToSegment(text))
  {
    assert [text][..0] == [];
  }

  /** A text without a quote and without edge whitespace is its own only fragment. */
  lemma WholeFragment(text: string)
    requires Whole(text)
    ensures Cut(text) == [text]
  {
    SplitClean(text, '\'');
    TextsOfWhole([text]);
  }

  lemma TypeTextIsWhole(m: Message)
    ensures Whole(TypeText(m))
  {
    TypeTextFacts(m.msgType);
    var text, prefix, suffix := TypeText(m), "UNH+1+", ":D:2.1:UN:EDIFACT";
    assert text == prefix + TypeName(m.msgType) + suffix;
    assert '\'' !in prefix && '\'' !in suffix;
    assert text[0] == 'U' && text[|text| - 1] == 'T';
  }

  /** The fragments of the printed payload items. */
  function PayloadFragments(m: Message): seq<string> {
    Fragments(PairTexts(Printed(m.payload)))
  }

  const TRAILERS: seq<string> := ["UNT+2+1", "UNZ+1+1"]

  lemma TwoWhole(a: string, b: string)
    requires Whole(a) && Whole(b)
    ensures Fragments([a, b]) == [a, b]
  {
    FragmentsOfTwo(a, b);
    WholeFragment(a);
    WholeFragment(b);
  }

  lemma TrailersAreWhole()
    ensures Fragments(TRAILERS) == TRAILERS
  {
    TwoWhole("UNT+2+1", "UNZ+1+1");
  }

  lemma HeadFragments(m: Message)
    ensures Fragments([HeaderText(m), TypeText(m)]) == Cut(HeaderText(m)) + [TypeText(m)]
  {
    FragmentsOfTwo(HeaderText(m), TypeText(m));
    TypeTextIsWhole(m);
    WholeFragment(TypeText(m));
  }

  /** Header and type come first, then the payload, then the trailers. */
  lemma FragmentsOfMessage(m: Message)
    ensures Fragments(MessageTexts(m)) == Cut(HeaderText(m)) + [TypeText(m)] + PayloadFragments(m) + TRAILERS
  {
    var first, pairs := [HeaderText(m), TypeText(m)], PairTexts(Printed(m.payload));
    FragmentsConcat(first + pairs, TRAILERS);
    FragmentsConcat(first, pairs);
    HeadFragments(m);
    TrailersAreWhole();
  }

  // ---- The type that comes back -----------------------------------------------------------------------------

  /** The type a text sets: one whose tag is UNH sets ORDERS if it has fewer than two elements, otherwise
      the type its second element names, if that is known. */
  function TypeIn(text: string): Option<MessageType> {
    var s := ToSegment(text);
    if s.tag != "UNH" then None
    else if |s.elements| < 2 then Some(ORDERS)
    else TypeOfName(Split(s.elements[1], ':')[0])
  }

  /** The type set last. */
  function TypeSet(texts: seq<string>): Option<MessageType> {
    if texts == [] then None
    else if TypeIn(texts[|texts| - 1]).Some? then TypeIn(texts[|texts| - 1])
    else TypeSet(texts[..|texts| - 1])
  }

  lemma {:induction false} TypeAfterIsTypeSet(t: MessageType, texts: seq<string>)
    ensures TypeAfter(t, texts) == if TypeSet(texts).Some? then TypeSet(texts).value else t
  {
    if texts != [] { TypeAfterIsTypeSet(t, texts[..|texts| - 1]); }
  }

  lemma TrailersKeepType(t: MessageType)
    ensures TypeAfter(t, TRAILERS) == t
  {
    FixedTags();
    TypeAfterOne(t, "UNT+2+1");
    assert TRAILERS[..1] == ["UNT+2+1"];
  }

  /** Every message comes back with the type the fragments of its payload set last, or with its own. */
  lemma TypeAfterRoundTrip(m: Message)
    ensures var t := TypeSet(PayloadFragments(m));
            TypeOf(ToSegments(SegmentTexts(Print(m)))) == if t.Some? then t.value else m.msgType
  {
    PrintedFragments(m);
    FragmentsOfMessage(m);
    TypeOfIsTypeAfter(Fragments(MessageTexts(m)));
    var header, payload := Cut(HeaderText(m)), PayloadFragments(m);
    TypeAfterConcat(ORDERS, header + [TypeText(m)] + payload, TRAILERS);
    TypeAfterConcat(ORDERS, header + [TypeText(m)], payload);
    TypeAfterConcat(ORDERS, header, [TypeText(m)]);
    TypeAfterOne(TypeAfter(ORDERS, header), TypeText(m));
    TypeSegment(m);
    TypeAfterIsTypeSet(m.msgType, payload);
    TrailersKeepType(TypeAfter(m.msgType, payload));
  }

  /** The message type survives the round trip exactly when the payload sets none or the same one. */
  lemma TypeSurvivesIff(m: Message)
    ensures TypeOf(ToSegments(SegmentTexts(Print(m)))) == m.msgType <==> TypeSet(PayloadFragments(m)) in {None, Some(m.msgType)}
  {
    TypeAfterRoundTrip(m);
  }

  /** The type that a value under the key UNH sets: ORDERS if it has no separator, otherwise the one
      its second element names, if that is known. */
  function TypeInValue(value: string): Option<MessageType> {
    if '+' !in value then Some(ORDERS) else TypeOfName(Split(SecondElement(value), ':')[0])
  }

  function SecondElement(value: string): string
    requires '+' in value
  {
    SeparatedInTwo(value);
    Split(value, '+')[1]
  }

  lemma SeparatedInTwo(value: string)
    ensures '+' in value <==> |Split(value, '+')| > 1
  {
    if '+' !in value {
      SplitClean(value, '+');
    } else if |Split(value, '+')| == 1 {
      JoinSplit(value, '+');
      SplitPiecesClean(value, '+', 0);
    }
  }

  /** The type the payload sets: that of its last UNH item that sets one. */
  function PayloadType(pairs: seq<(string, string)>): Option<MessageType> {
    if pairs == [] then None
    else
      var last := pairs[|pairs| - 1];
      if last.0 == "UNH" && TypeInValue(last.1).Some? then TypeInValue(last.1) else PayloadType(pairs[..|pairs| - 1])
  }

  lemma TypeInItem(p: (string, string))
    requires '+' !in p.0
    ensures TypeIn(PairText(p)) == if p.0 == "UNH" then TypeInValue(p.1) else None
  {
    PairSegment(p);
    SeparatedInTwo(p.1);
  }

  lemma {:induction false} FragmentsOfWhole(texts: seq<string>)
    requires forall i | 0 <= i < |texts| :: Whole(texts[i])
    ensures Fragments(texts) == texts
  {
    if texts != [] {
      FragmentsOfWhole(texts[..|texts| - 1]);
      WholeFragment(texts[|texts| - 1]);
      assert texts == texts[..|texts| - 1] + [texts[|texts| - 1]];
    }
  }

  lemma {:induction false} TypeSetByItems(pairs: seq<(string, string)>)
    requires forall i | 0 <= i < |pairs| :: '+' !in pairs[i].0
    ensures TypeSet(PairTexts(pairs)) == PayloadType(pairs)
  {
    if pairs != [] {
      var n := |pairs| - 1;
      TypeSetByItems(pairs[..n]);
      TypeInItem(pairs[n]);
      assert PairTexts(pairs)[..n] == PairTexts(pairs[..n]);
    }
  }

  /** In a transmittable message the items are their own fragments: the type is that of the last item
      with key UNH that sets one. */
  lemma ItemsDecideType(m: Message)
    requires Transmittable(m)
    ensures TypeSet(PayloadFragments(m)) == PayloadType(Printed(m.payload))
  {
    FragmentsOfWhole(PairTexts(Printed(m.payload)));
    TypeSetByItems(Printed(m.payload));
  }
}
