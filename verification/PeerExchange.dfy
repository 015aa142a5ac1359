/** The peer exchange of providers/websocket_bridge: protocol.py and the frame loop of sidecar.py.

    No node keeps a ledger of conversations.  The hop count travels in the frames alone, and still bounds every
    exchange. */
module PeerExchange {
  import opened Wrappers
  import Segments

  const MAX_PEER_MESSAGE_COUNT := 8
  const PEER_CONTEXT_VERSION := 1
  const PEER_END_SENTINEL := "[[peer_end]]"

  // ----- protocol.py -----

  datatype Context = Context(exchangeId: string, messageCount: int)

  /** A JSON value where an integer is expected. */
  datatype Number = Integer(value: int) | NotANumber

  datatype WireContext = NotAnObject | Object(version: Number, exchangeId: string, messageCount: Number)

  datatype Parsed = Valid(context: Context) | Invalid(reason: string)

  function Root(id: string): Context {
    Context(id, 1)
  }

  function NextMessage(c: Context): Context {
    c.(messageCount := c.messageCount + 1)
  }

  function ToWire(c: Context): WireContext {
    Object(Integer(PEER_CONTEXT_VERSION), c.exchangeId, Integer(c.messageCount))
  }

  /** What the model does not look into: which strings are UUIDs, and which texts decode to a forged control frame. */
  datatype Oracle = Oracle(isUuid: string -> bool, forges: string -> bool)

  function ParsePeerContext(value: WireContext, o: Oracle): Parsed {
    match value
    case NotAnObject => Invalid("peer_context must be an object")
    case Object(version, exchangeId, messageCount) =>
      if version.NotANumber? || messageCount.NotANumber? then
        Invalid("peer_context version and message_count must be integers")
      else if version.value != PEER_CONTEXT_VERSION then Invalid("unsupported peer_context version")
      else if !o.isUuid(Segments.Strip(exchangeId)) then Invalid("peer_context exchange_id must be a UUID")
      else if messageCount.value < 1 then Invalid("peer_context message_count must be positive")
      else Valid(Context(Segments.Strip(exchangeId), messageCount.value))
  }

  /** A context the bridge itself puts on the wire. */
  predicate Genuine(c: Context, o: Oracle) {
    o.isUuid(c.exchangeId) && Segments.Trimmed(c.exchangeId) && c.messageCount >= 1
  }

  lemma StripTrimmed(s: string)
    requires Segments.Trimmed(s)
    ensures Segments.Strip(s) == s
  {
    if s != "" {
      assert Segments.Leading(s) == 0 && Segments.Trailing(s) == |s|;
    }
  }

  /** A context survives the wire exactly when it is genuine, and parsing never invents or resets a hop count. */
  lemma WireRoundTrip(c: Context, o: Oracle)
    ensures ParsePeerContext(ToWire(c), o) == Valid(c) <==> Genuine(c, o)
  {
    if Genuine(c, o) {
      StripTrimmed(c.exchangeId);
    }
  }

  lemma ParsedIsGenuine(value: WireContext, o: Oracle)
    ensures ParsePeerContext(value, o).Valid? ==>
      var c := ParsePeerContext(value, o).context;
      Genuine(c, o) && value.Object? && value.messageCount == Integer(c.messageCount)
      && ParsePeerContext(ToWire(c), o) == Valid(c)
  {
    if ParsePeerContext(value, o).Valid? {
      WireRoundTrip(ParsePeerContext(value, o).context, o);
    }
  }

  // ----- the boundary -----

  datatype Boundary = Deliverable | Slash | ControlPlane | BlankText

  function Classify(text: string, o: Oracle): Boundary {
    var lead := Segments.Leading(text);
    if lead < |text| && text[lead] == '/' then Slash
    else if o.forges(text) then ControlPlane
    else if lead == |text| then BlankText
    else Deliverable
  }

  /** A decoded WebSocket frame. */
  datatype Frame =
    | Plain(text: string)                                          // not a protocol payload
    | UserMessage(text: string, context: Option<WireContext>)
    | SlashCommand(text: string)
    | LegacyResponse(text: string)

  /** What the local Pal makes of a delivered message. */
  datatype Reply = Raised | NoText | Text(text: string)

  function Encode(text: string, c: Context): Frame {
    UserMessage(text, Some(ToWire(c)))
  }

  /** The context of a frame that is handed to the local Pal. */
  function Accepted(frame: Frame, o: Oracle): Option<Context> {
    match frame
    case UserMessage(text, Some(wire)) =>
      if text != PEER_END_SENTINEL && Classify(text, o) == Deliverable then
        (match ParsePeerContext(wire, o)
         case Valid(c) => if c.messageCount <= MAX_PEER_MESSAGE_COUNT then Some(c) else None
         case Invalid(_) => None)
      else None
    case _ => None
  }

  /** The frame sent on, if any: the reply, one hop further. */
  function Forward(frame: Frame, reply: Reply, o: Oracle): Option<Frame> {
    match (Accepted(frame, o), reply)
    case (Some(c), Text(text)) =>
      if text != "" && text != PEER_END_SENTINEL && c.messageCount < MAX_PEER_MESSAGE_COUNT
      then Some(Encode(text, NextMessage(c))) else None
    case _ => None
  }

  // ----- what may pass, said without the code that decides it -----

  /** The first character that is not white space is a slash. */
  ghost predicate SlashFirst(text: string) {
    exists i :: 0 <= i < |text| && text[i] == '/' && Segments.Blank(text[..i])
  }

  /** Words for the local Pal: not the sentinel, not blank, no slash command and no forged control frame. */
  ghost predicate Speakable(text: string, o: Oracle) {
    text != "[[peer_end]]" && !Segments.Blank(text) && !SlashFirst(text) && !o.forges(text)
  }

  /** A context of version 1, with a UUID and a positive count. */
  ghost predicate Carries(wire: Option<WireContext>, o: Oracle, id: string, count: int) {
    wire.Some? && wire.value.Object? && wire.value.version == Integer(1) && wire.value.messageCount == Integer(count)
    && id == Segments.Strip(wire.value.exchangeId) && o.isUuid(id) && 1 <= count
  }

  ghost predicate CarriesSome(wire: Option<WireContext>, o: Oracle) {
    exists id, count :: Carries(wire, o, id, count)
  }

  /** The frame goes to the local Pal as message `count` of the exchange `id`. */
  ghost predicate Passes(frame: Frame, o: Oracle, id: string, count: int) {
    frame.UserMessage? && Speakable(frame.text, o) && Carries(frame.context, o, id, count) && count <= 8
  }

  ghost predicate PassesSome(frame: Frame, o: Oracle) {
    exists id, count :: Passes(frame, o, id, count)
  }

  /** The text of a frame that is read as a message, protocol payload or not. */
  predicate IsMessage(frame: Frame) {
    frame.Plain? || frame.UserMessage?
  }

  function WireOf(frame: Frame): Option<WireContext> {
    if frame.UserMessage? then frame.context else None
  }

  /** Refused by name: a slash command, a forged control frame, or words without a valid context. */
  ghost predicate Rejected(frame: Frame, o: Oracle) {
    frame.SlashCommand?
    || (IsMessage(frame) && frame.text != "[[peer_end]]"
        && (SlashFirst(frame.text) || o.forges(frame.text) || (!Segments.Blank(frame.text) && !CarriesSome(WireOf(frame), o))))
  }

  ghost predicate EndedBySentinel(frame: Frame, reply: Reply, o: Oracle) {
    (IsMessage(frame) && frame.text == "[[peer_end]]") || (PassesSome(frame, o) && reply == Text("[[peer_end]]"))
  }

  /** More than eight hops: the frame itself, or the answer that would be the ninth. */
  ghost predicate EndedByLimit(frame: Frame, reply: Reply, o: Oracle) {
    || (frame.UserMessage? && Speakable(frame.text, o) && exists id, count :: Carries(frame.context, o, id, count) && count > 8)
    || (reply.Text? && reply.text != "" && reply.text != "[[peer_end]]" && exists id :: Passes(frame, o, id, 8))
  }

  /** Every text falls under exactly what the boundary calls it. */
  lemma ClassifyMeans(text: string, o: Oracle)
    ensures Classify(text, o) == Slash <==> SlashFirst(text)
    ensures Classify(text, o) == ControlPlane <==> !SlashFirst(text) && o.forges(text)
    ensures Classify(text, o) == BlankText <==> !o.forges(text) && Segments.Blank(text)
    ensures Classify(text, o) == Deliverable && text != PEER_END_SENTINEL <==> Speakable(text, o)
  {
    var lead := Segments.Leading(text);
    assert text[..|text|] == text;
    if lead < |text| && text[lead] == '/' {
      assert SlashFirst(text);
    }
    if SlashFirst(text) {
      var i :| 0 <= i < |text| && text[i] == '/' && Segments.Blank(text[..i]);
      SameLead(text, i);
    }
    if lead < |text| {
      assert !Segments.Blank(text);
    }
  }

  // Where the white space in front ends.
  lemma SameLead(text: string, i: nat)
    requires i < |text| && Segments.Blank(text[..i]) && !Segments.Space(text[i])
    ensures Segments.Leading(text) == i
  {
    var lead := Segments.Leading(text);
    forall j | 0 <= j < i ensures Segments.Space(text[j]) {
      assert text[..i][j] == text[j];
    }
    forall j | 0 <= j < lead ensures Segments.Space(text[j]) {
      assert text[..lead][j] == text[j];
    }
  }

  lemma ParseMeans(wire: WireContext, o: Oracle, id: string, count: int)
    ensures Carries(Some(wire), o, id, count) <==> ParsePeerContext(wire, o) == Valid(Context(id, count))
  {}

  lemma AcceptedMeans(frame: Frame, o: Oracle, id: string, count: int)
    ensures Accepted(frame, o) == Some(Context(id, count)) <==> Passes(frame, o, id, count)
  {
    if frame.UserMessage? && frame.context.Some? {
      ClassifyMeans(frame.text, o);
      ParseMeans(frame.context.value, o, id, count);
    }
  }

  /** A frame passes if and only if it is accepted. */
  lemma AcceptedPasses(frame: Frame, o: Oracle)
    ensures Accepted(frame, o).Some? <==> PassesSome(frame, o)
    ensures Accepted(frame, o).Some? ==> Passes(frame, o, Accepted(frame, o).value.exchangeId, Accepted(frame, o).value.messageCount)
  {
    if Accepted(frame, o).Some? {
      var c := Accepted(frame, o).value;
      AcceptedMeans(frame, o, c.exchangeId, c.messageCount);
    }
    if PassesSome(frame, o) {
      var id, count :| Passes(frame, o, id, count);
      AcceptedMeans(frame, o, id, count);
    }
  }

  /** What is sent on: the answer, under the same exchange, one hop further, while that is within eight. */
  lemma ForwardMeans(frame: Frame, reply: Reply, o: Oracle, id: string, count: int)
    requires Passes(frame, o, id, count)
    ensures Forward(frame, reply, o) ==
      if reply.Text? && reply.text != "" && reply.text != "[[peer_end]]" && count < 8
      then Some(UserMessage(reply.text, Some(Object(Integer(1), id, Integer(count + 1))))) else None
  {
    AcceptedMeans(frame, o, id, count);
  }

  lemma CarriesMeans(wire: Option<WireContext>, o: Oracle)
    ensures CarriesSome(wire, o) <==> wire.Some? && ParsePeerContext(wire.value, o).Valid?
    ensures CarriesSome(wire, o) ==>
      var c := ParsePeerContext(wire.value, o).context;
      forall id, count :: Carries(wire, o, id, count) <==> id == c.exchangeId && count == c.messageCount
  {
    if wire.Some? {
      if ParsePeerContext(wire.value, o).Valid? {
        var c := ParsePeerContext(wire.value, o).context;
        ParseMeans(wire.value, o, c.exchangeId, c.messageCount);
        assert Carries(wire, o, c.exchangeId, c.messageCount);
      }
      forall id, count | Carries(wire, o, id, count) ensures ParsePeerContext(wire.value, o) == Valid(Context(id, count)) {
        ParseMeans(wire.value, o, id, count);
      }
    }
  }

  // What the steps of the frame loop decide about a message.
  lemma MessageVerdicts(frame: Frame, reply: Reply, o: Oracle)
    requires IsMessage(frame) && frame.text != PEER_END_SENTINEL
    ensures var wire, boundary := WireOf(frame), Classify(frame.text, o);
      var spoken := boundary == Deliverable && wire.Some? && ParsePeerContext(wire.value, o).Valid?;
      && (Rejected(frame, o) <==> boundary == Slash || boundary == ControlPlane || (boundary == Deliverable && !spoken))
      && (PassesSome(frame, o) <==> spoken && ParsePeerContext(wire.value, o).context.messageCount <= 8)
      && (EndedBySentinel(frame, reply, o) <==> PassesSome(frame, o) && reply == Text(PEER_END_SENTINEL))
      && (EndedByLimit(frame, reply, o) <==>
            && spoken
            && (ParsePeerContext(wire.value, o).context.messageCount > 8
                || (ParsePeerContext(wire.value, o).context.messageCount == 8
                    && reply.Text? && reply.text != "" && reply.text != PEER_END_SENTINEL)))
  {
    ClassifyMeans(frame.text, o);
    CarriesMeans(WireOf(frame), o);
    var wire := WireOf(frame);
    if CarriesSome(wire, o) {
      var c := ParsePeerContext(wire.value, o).context;
      assert Carries(wire, o, c.exchangeId, c.messageCount);
      assert Passes(frame, o, c.exchangeId, c.messageCount) <==> Speakable(frame.text, o) && c.messageCount <= 8;
    }
  }

  // ----- one node -----

  class SidecarRuntime {
    const oracle: Oracle
    var rejectionCount: nat
    var sentinelDropCount: nat
    var limitDropCount: nat
    var legacyResponseDropCount: nat
    var activeExchangeId: string
    var activeMessageCount: int

    predicate Idle()
      reads this
    {
      activeExchangeId == "" && activeMessageCount == 0
    }

    constructor (oracle: Oracle)
      ensures this.oracle == oracle && Idle()
      ensures rejectionCount == sentinelDropCount == limitDropCount == legacyResponseDropCount == 0
    {
      this.oracle := oracle;
      rejectionCount, sentinelDropCount, limitDropCount, legacyResponseDropCount := 0, 0, 0, 0;
      activeExchangeId, activeMessageCount := "", 0;
    }

    method Activate(c: Context)
      modifies this`activeExchangeId, this`activeMessageCount
      ensures activeExchangeId == c.exchangeId && activeMessageCount == c.messageCount
    {
      activeExchangeId, activeMessageCount := c.exchangeId, c.messageCount;
    }

    method Clear()
      modifies this`activeExchangeId, this`activeMessageCount
      ensures Idle()
    {
      activeExchangeId, activeMessageCount := "", 0;
    }

    method Terminate(reason: string)
      modifies this`activeExchangeId, this`activeMessageCount, this`sentinelDropCount, this`limitDropCount
      ensures Idle()
      ensures sentinelDropCount == old(sentinelDropCount) + if reason == "sentinel" then 1 else 0
      ensures limitDropCount == old(limitDropCount) + if reason == "limit" then 1 else 0
    {
      if reason == "sentinel" {
        sentinelDropCount := sentinelDropCount + 1;
      } else if reason == "limit" {
        limitDropCount := limitDropCount + 1;
      }
      Clear();
    }

    /** One round of the frame loop.  `reply` is what the local Pal answers if it is asked; `asked` says whether it was.
        When the send raises, the round ends with `raised` and nothing goes out. */
    method ProcessFrame(frame: Frame, reply: Reply, sendFails: bool) returns (out: Option<Frame>, asked: bool, raised: bool)
      requires Idle()
      modifies this
      ensures out == if sendFails then None else Forward(frame, reply, oracle)
      ensures raised <==> sendFails && Forward(frame, reply, oracle).Some?
      ensures asked <==> Accepted(frame, oracle).Some?
      // The local Pal is asked exactly about words that may pass.
      ensures asked <==> PassesSome(frame, oracle)
      ensures forall id, count :: Passes(frame, oracle, id, count) ==>
        var sends := reply.Text? && reply.text != "" && reply.text != "[[peer_end]]" && count < 8;
        && raised == (sends && sendFails)
        && out == if sends && !sendFails then Some(UserMessage(reply.text, Some(Object(Integer(1), id, Integer(count + 1))))) else None
      ensures !asked ==> out.None? && !raised
      // Each refusal has its counter.
      ensures rejectionCount == old(rejectionCount) + if Rejected(frame, oracle) then 1 else 0
      ensures legacyResponseDropCount == old(legacyResponseDropCount) + if frame.LegacyResponse? then 1 else 0
      ensures sentinelDropCount == old(sentinelDropCount) + if EndedBySentinel(frame, reply, oracle) then 1 else 0
      ensures limitDropCount == old(limitDropCount) + if EndedByLimit(frame, reply, oracle) then 1 else 0
      // Between frames nothing of the exchange is kept.
      ensures Idle()
      // Every frame that is not passed on is accounted for at most once.
      ensures var drops := rejectionCount + sentinelDropCount + limitDropCount + legacyResponseDropCount;
        var before := old(rejectionCount + sentinelDropCount + limitDropCount + legacyResponseDropCount);
        before <= drops <= before + 1 && (out.Some? || raised ==> drops == before)
    {
      out, asked, raised := None, false, false;
      AcceptedPasses(frame, oracle);
      forall id, count | Passes(frame, oracle, id, count)
        ensures Forward(frame, reply, oracle) ==
          if reply.Text? && reply.text != "" && reply.text != "[[peer_end]]" && count < 8
          then Some(UserMessage(reply.text, Some(Object(Integer(1), id, Integer(count + 1))))) else None
      {
        ForwardMeans(frame, reply, oracle, id, count);
      }
      if frame.SlashCommand? {
        rejectionCount := rejectionCount + 1;
        return;
      }
      if frame.LegacyResponse? {
        legacyResponseDropCount := legacyResponseDropCount + 1;
        return;
      }
      if frame.text == PEER_END_SENTINEL {
        Terminate("sentinel");
        return;
      }
      MessageVerdicts(frame, reply, oracle);
      var boundary := Classify(frame.text, oracle);
      if boundary != Deliverable {
        if boundary != BlankText {
          rejectionCount := rejectionCount + 1;
        }
        Terminate("rejected");
        return;
      }
      if frame.Plain? || frame.context.None? {
        rejectionCount := rejectionCount + 1;
        Terminate("invalid_context");
        return;
      }
      var parsed := ParsePeerContext(frame.context.value, oracle);
      if parsed.Invalid? {
        rejectionCount := rejectionCount + 1;
        Terminate("invalid_context");
        return;
      }
      var exchange := parsed.context;
      if exchange.messageCount > MAX_PEER_MESSAGE_COUNT {
        Terminate("limit");
        return;
      }
      asked := true;
      out, raised := Answer(exchange, reply, sendFails);
    }

    // The rest of the round: the frame was handed to the local Pal.
    method Answer(exchange: Context, reply: Reply, sendFails: bool) returns (out: Option<Frame>, raised: bool)
      requires Idle()
      modifies this`activeExchangeId, this`activeMessageCount, this`sentinelDropCount, this`limitDropCount
      ensures Idle()
      ensures var sends := reply.Text? && reply.text != "" && reply.text != PEER_END_SENTINEL && exchange.messageCount < MAX_PEER_MESSAGE_COUNT;
        && out == (if sends && !sendFails then Some(Encode(reply.text, NextMessage(exchange))) else None)
        && raised == (sends && sendFails)
      ensures sentinelDropCount == old(sentinelDropCount) + if reply == Text(PEER_END_SENTINEL) then 1 else 0
      ensures limitDropCount == old(limitDropCount) +
        if reply.Text? && reply.text != "" && reply.text != PEER_END_SENTINEL && exchange.messageCount >= MAX_PEER_MESSAGE_COUNT then 1 else 0
    {
      out, raised := None, false;
      Activate(exchange);
      if reply.Raised? {
        Terminate("delivery_error");
      } else if reply.NoText? || reply.text == "" {
        Terminate("empty");
      } else if reply.text == PEER_END_SENTINEL {
        Terminate("sentinel");
      } else if NextMessage(exchange).messageCount > MAX_PEER_MESSAGE_COUNT {
        Terminate("limit");
      } else {
        Activate(NextMessage(exchange));
        if sendFails {
          Terminate("send_error");
          raised := true;
        } else {
          out := Some(Encode(reply.text, NextMessage(exchange)));
          Clear();
        }
      }
    }
  }

  // ----- a network of bridges -----

  /** A frame on its way, or being answered by the node that received it. */
  datatype Token = OnWire(context: Context, frame: Frame) | Answering(context: Context, frame: Frame)

  /** `sent` records every frame put on a wire, oldest first. */
  datatype Network = Network(tokens: seq<Token>, used: set<string>, sent: seq<Context>)

  datatype Label =
    | SendRoot(id: string, text: string)   // a node starts an exchange under a fresh id
    | Lose(i: nat)                         // disconnect, shutdown or send error: the frame or its answer is gone
    | Receive(i: nat)                      // a node takes the frame off the wire
    | Respond(i: nat, reply: Reply)        // the local Pal answers, however late

  const Quiet := Network([], {}, [])

  function Without(tokens: seq<Token>, i: nat): seq<Token>
    requires i < |tokens|
  {
    tokens[..i] + tokens[i + 1..]
  }

  predicate Enabled(n: Network, l: Label, o: Oracle) {
    match l
    case SendRoot(id, text) => id !in n.used && Genuine(Root(id), o) && Classify(text, o) == Deliverable && text != PEER_END_SENTINEL
    case Lose(i) => i < |n.tokens|
    case Receive(i) => i < |n.tokens| && n.tokens[i].OnWire?
    case Respond(i, _) => i < |n.tokens| && n.tokens[i].Answering?
  }

  function Step(n: Network, l: Label, o: Oracle): Network {
    if !Enabled(n, l, o) then n else
      match l
      case SendRoot(id, text) =>
        var c := Root(id);
        Network(n.tokens + [OnWire(c, Encode(text, c))], n.used + {id}, n.sent + [c])
      case Lose(i) => n.(tokens := Without(n.tokens, i))
      case Receive(i) =>
        var t := n.tokens[i];
        if Accepted(t.frame, o).Some? then n.(tokens := n.tokens[i := Answering(t.context, t.frame)])
        else n.(tokens := Without(n.tokens, i))
      case Respond(i, reply) =>
        (match Forward(n.tokens[i].frame, reply, o)
         case Some(frame) =>
           var c := NextMessage(n.tokens[i].context);
           n.(tokens := n.tokens[i := OnWire(c, frame)], sent := n.sent + [c])
         case None => n.(tokens := Without(n.tokens, i)))
  }

  function Run(labels: seq<Label>, o: Oracle): Network {
    if labels == [] then Quiet else Step(Run(labels[..|labels|-1], o), labels[|labels|-1], o)
  }

  /** The hop counts one exchange has put on the wire, in order. */
  function Counts(sent: seq<Context>, id: string): seq<int> {
    if sent == [] then [] else
      var c := sent[|sent|-1];
      Counts(sent[..|sent|-1], id) + if c.exchangeId == id then [c.messageCount] else []
  }

  /** 1, 2, ..., n */
  function Upto(n: nat): seq<int> {
    seq(n, i requires 0 <= i < n => i + 1)
  }

  // ----- at most one frame an exchange, at most eight hops -----

  /** A token carries its own context on the wire; what is being answered was accepted. */
  ghost predicate TokenOk(t: Token, o: Oracle) {
    && Genuine(t.context, o) && t.context.messageCount <= MAX_PEER_MESSAGE_COUNT
    && t.frame.UserMessage? && t.frame.context == Some(ToWire(t.context))
    && (t.Answering? ==> Accepted(t.frame, o) == Some(t.context))
  }

  ghost predicate Inv(n: Network, o: Oracle) {
    && (forall i :: 0 <= i < |n.tokens| ==> TokenOk(n.tokens[i], o))
    && (forall i :: 0 <= i < |n.tokens| ==> n.tokens[i].context.exchangeId in n.used)
    && (forall i, j :: 0 <= i < j < |n.tokens| ==> n.tokens[i].context.exchangeId != n.tokens[j].context.exchangeId)
    && (forall i :: 0 <= i < |n.tokens| ==> Counts(n.sent, n.tokens[i].context.exchangeId) == Upto(n.tokens[i].context.messageCount))
    && (forall id :: CountsUp(n.sent, id))
    && (forall id :: id !in n.used ==> Counts(n.sent, id) == [])
  }

  ghost predicate CountsUp(sent: seq<Context>, id: string) {
    var counts := Counts(sent, id);
    |counts| <= MAX_PEER_MESSAGE_COUNT && counts == Upto(|counts|)
  }

  lemma OneMoreSent(sent: seq<Context>, c: Context, id: string)
    ensures Counts(sent + [c], id) == Counts(sent, id) + if c.exchangeId == id then [c.messageCount] else []
  {
    assert (sent + [c])[..|sent|] == sent;
  }

  // What goes out carries the next context, and only within the limit.
  lemma ForwardNext(t: Token, reply: Reply, o: Oracle)
    requires TokenOk(t, o) && Forward(t.frame, reply, o).Some?
    ensures TokenOk(OnWire(NextMessage(t.context), Forward(t.frame, reply, o).value), o)
  {
    WireRoundTrip(t.context, o);
  }

  lemma AcceptedOwn(t: Token, o: Oracle)
    requires TokenOk(t, o) && Accepted(t.frame, o).Some?
    ensures Accepted(t.frame, o) == Some(t.context)
  {
    WireRoundTrip(t.context, o);
  }

  lemma LoseKeeps(n: Network, i: nat, o: Oracle)
    requires Inv(n, o) && i < |n.tokens|
    ensures Inv(n.(tokens := Without(n.tokens, i)), o)
  {
    var tokens := Without(n.tokens, i);
    forall j | 0 <= j < |tokens| ensures tokens[j] == n.tokens[if j < i then j else j + 1] {}
  }

  lemma SendCounts(n: Network, id: string)
    requires forall k :: k !in n.used ==> Counts(n.sent, k) == []
    requires forall k :: CountsUp(n.sent, k)
    requires id !in n.used
    ensures Counts(n.sent + [Root(id)], id) == Upto(1)
    ensures forall k :: k != id ==> Counts(n.sent + [Root(id)], k) == Counts(n.sent, k)
    ensures forall k :: CountsUp(n.sent + [Root(id)], k)
  {
    OneMoreSent(n.sent, Root(id), id);
    assert Upto(1) == [1];
    forall k | k != id ensures Counts(n.sent + [Root(id)], k) == Counts(n.sent, k) {
      OneMoreSent(n.sent, Root(id), k);
    }
    forall k ensures CountsUp(n.sent + [Root(id)], k) {
      assert CountsUp(n.sent, k);
    }
  }

  lemma SendKeeps(n: Network, id: string, text: string, o: Oracle)
    requires Inv(n, o) && Enabled(n, SendRoot(id, text), o)
    ensures Inv(Step(n, SendRoot(id, text), o), o)
  {
    var m := Step(n, SendRoot(id, text), o);
    SendCounts(n, id);
    var t := OnWire(Root(id), Encode(text, Root(id)));
    assert m == Network(n.tokens + [t], n.used + {id}, n.sent + [Root(id)]);
    assert TokenOk(t, o);
    forall i | 0 <= i < |m.tokens|
      ensures TokenOk(m.tokens[i], o) && m.tokens[i].context.exchangeId in m.used
      ensures Counts(m.sent, m.tokens[i].context.exchangeId) == Upto(m.tokens[i].context.messageCount)
    {
      if i < |n.tokens| {
        assert m.tokens[i] == n.tokens[i];
      } else {
        assert m.tokens[i] == t;
      }
    }
  }

  lemma RespondKeeps(n: Network, i: nat, reply: Reply, o: Oracle)
    requires Inv(n, o) && Enabled(n, Respond(i, reply), o) && Forward(n.tokens[i].frame, reply, o).Some?
    ensures Inv(Step(n, Respond(i, reply), o), o)
  {
    var m, t := Step(n, Respond(i, reply), o), n.tokens[i];
    var c := NextMessage(t.context);
    ForwardNext(t, reply, o);
    forall k ensures Counts(m.sent, k) == Counts(n.sent, k) + if k == c.exchangeId then [c.messageCount] else [] {
      OneMoreSent(n.sent, c, k);
    }
    assert Upto(t.context.messageCount) + [c.messageCount] == Upto(c.messageCount);
    forall k ensures CountsUp(m.sent, k) {
      assert CountsUp(n.sent, k);
    }
  }

  lemma StepKeeps(n: Network, l: Label, o: Oracle)
    requires Inv(n, o)
    ensures Inv(Step(n, l, o), o)
  {
    if Enabled(n, l, o) {
      match l
      case SendRoot(id, text) => SendKeeps(n, id, text, o);
      case Lose(i) => LoseKeeps(n, i, o);
      case Receive(i) =>
        if Accepted(n.tokens[i].frame, o).Some? {
          AcceptedOwn(n.tokens[i], o);
        } else {
          LoseKeeps(n, i, o);
        }
      case Respond(i, reply) =>
        if Forward(n.tokens[i].frame, reply, o).Some? {
          RespondKeeps(n, i, reply, o);
        } else {
          LoseKeeps(n, i, o);
        }
    }
  }

  lemma {:induction false} RunKeeps(labels: seq<Label>, o: Oracle)
    ensures Inv(Run(labels, o), o)
  {
    if labels != [] {
      RunKeeps(labels[..|labels|-1], o);
      StepKeeps(Run(labels[..|labels|-1], o), labels[|labels|-1], o);
    }
  }

  /** Under every interleaving of roots, losses, receptions and late answers, an exchange has at most one frame under
      way, and the frames it sent carry the counts 1, 2, ... without gap or repetition, never above eight. */
  lemma BoundedExchanges(labels: seq<Label>, o: Oracle, id: string)
    ensures var n := Run(labels, o);
      && CountsUp(n.sent, id)
      && (forall i, j :: 0 <= i < j < |n.tokens| ==> n.tokens[i].context.exchangeId != n.tokens[j].context.exchangeId)
      && (forall i :: 0 <= i < |n.tokens| && n.tokens[i].context.exchangeId == id ==>
            |Counts(n.sent, id)| == n.tokens[i].context.messageCount)
  {
    RunKeeps(labels, o);
    assert CountsUp(Run(labels, o).sent, id);
  }

  // ----- termination -----

  /** The steps a token can still take part in. */
  function Energy(t: Token): int {
    2 * (MAX_PEER_MESSAGE_COUNT - t.context.messageCount) + if t.OnWire? then 2 else 1
  }

  function TotalEnergy(tokens: seq<Token>): int {
    if tokens == [] then 0 else TotalEnergy(tokens[..|tokens|-1]) + Energy(tokens[|tokens|-1])
  }

  lemma {:induction false} EnergyWithout(tokens: seq<Token>, i: nat)
    requires i < |tokens|
    ensures TotalEnergy(Without(tokens, i)) == TotalEnergy(tokens) - Energy(tokens[i])
  {
    var front := tokens[..|tokens|-1];
    if i == |tokens| - 1 {
      assert Without(tokens, i) == front;
    } else {
      EnergyWithout(front, i);
      assert Without(tokens, i) == Without(front, i) + [tokens[|tokens|-1]];
      assert Without(tokens, i)[..|tokens|-2] == Without(front, i);
    }
  }

  lemma {:induction false} EnergyUpdate(tokens: seq<Token>, i: nat, t: Token)
    requires i < |tokens|
    ensures TotalEnergy(tokens[i := t]) == TotalEnergy(tokens) - Energy(tokens[i]) + Energy(t)
  {
    var front := tokens[..|tokens|-1];
    if i == |tokens| - 1 {
      assert tokens[i := t][..|tokens|-1] == front;
    } else {
      EnergyUpdate(front, i, t);
      assert tokens[i := t][..|tokens|-1] == front[i := t];
    }
  }

  lemma {:induction false} EnergyNonNegative(tokens: seq<Token>, o: Oracle)
    requires forall i :: 0 <= i < |tokens| ==> TokenOk(tokens[i], o)
    ensures TotalEnergy(tokens) >= 0
  {
    if tokens != [] {
      EnergyNonNegative(tokens[..|tokens|-1], o);
    }
  }

  lemma StepLosesEnergy(n: Network, l: Label, o: Oracle)
    requires Inv(n, o) && Enabled(n, l, o)
    ensures if l.SendRoot? then TotalEnergy(Step(n, l, o).tokens) == TotalEnergy(n.tokens) + 16
            else TotalEnergy(Step(n, l, o).tokens) < TotalEnergy(n.tokens)
  {
    match l
    case SendRoot(id, text) =>
      assert Step(n, l, o).tokens[..|n.tokens|] == n.tokens;
    case Lose(i) => EnergyWithout(n.tokens, i);
    case Receive(i) =>
      EnergyWithout(n.tokens, i);
      EnergyUpdate(n.tokens, i, Answering(n.tokens[i].context, n.tokens[i].frame));
    case Respond(i, reply) =>
      EnergyWithout(n.tokens, i);
      if Forward(n.tokens[i].frame, reply, o).Some? {
        EnergyUpdate(n.tokens, i, OnWire(NextMessage(n.tokens[i].context), Forward(n.tokens[i].frame, reply, o).value));
      }
  }

  /** How many labels of a run took effect, roots and other steps. */
  function Effective(labels: seq<Label>, o: Oracle): (int, int) {
    if labels == [] then (0, 0) else
      var front, l := labels[..|labels|-1], labels[|labels|-1];
      var (roots, steps) := Effective(front, o);
      if !Enabled(Run(front, o), l, o) then (roots, steps)
      else if l.SendRoot? then (roots + 1, steps)
      else (roots, steps + 1)
  }

  /** Without new roots every run ends: a run takes at most sixteen steps for every exchange started in it. */
  lemma {:induction false} RunsEnd(labels: seq<Label>, o: Oracle)
    ensures var (roots, steps) := Effective(labels, o);
      steps + TotalEnergy(Run(labels, o).tokens) <= 16 * roots && steps <= 16 * roots
  {
    RunKeeps(labels, o);
    EnergyNonNegative(Run(labels, o).tokens, o);
    if labels != [] {
      var front, l := labels[..|labels|-1], labels[|labels|-1];
      RunsEnd(front, o);
      RunKeeps(front, o);
      if Enabled(Run(front, o), l, o) {
        StepLosesEnergy(Run(front, o), l, o);
      }
    }
  }
}
