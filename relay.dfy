/** The hub's connection registry and event relay (app.py), as a pure
    transition system: each Socket.IO handler maps the registry before the
    event to the registry after it and the emits it makes, in order.
    Handlers run one at a time; each `await sio.emit` is an element of the
    emitted sequence. The class `Server.Hub` performs the same updates in
    place and is proved against these functions. */
module Relay {
  import opened Protocol
  import Text

  /** The kind of client behind a connection, decided from its referer. */
  datatype Role = Master | Viewer | Control | Unknown

  /** Referer classification: the patterns are tried in a fixed order, so
      a referer mentioning both "/master" and "/viewer" is a master. */
  function Classify(referer: string): (role: Role)
    ensures role == Master <==> Text.Occurs("/master", referer)
    ensures role == Viewer <==> !Text.Occurs("/master", referer) && Text.Occurs("/viewer", referer)
    ensures role == Control <==>
      !Text.Occurs("/master", referer) && !Text.Occurs("/viewer", referer) && Text.Occurs("/control", referer)
  {
    if Text.Contains(referer, "/master") then Master
    else if Text.Contains(referer, "/viewer") then Viewer
    else if Text.Contains(referer, "/control") then Control
    else Unknown
  }

  /** `sid_registry` together with the module globals `history` and
      `CURRENT_SESSION_ID`. */
  datatype Registry = Registry(
    master: Option<Sid>,
    control: Option<Sid>,
    viewerCount: nat,
    recognitionState: bool,
    history: seq<Entry>,
    sessionId: int)

  /** The registry at process start, before any stored session is loaded. */
  const Initial := Registry(None, None, 0, false, [], 1)

  /** The outcome of one handler: the new registry and the emits, in order. */
  datatype Step = Step(next: Registry, emits: seq<Emit>)

  /** Sends the master the current viewer count, if a master is registered. */
  function NotifyMaster(s: Registry): (r: seq<Emit>)
    ensures r == [] <==> s.master.None?
    ensures forall e :: e in r ==> s.master.Some? && e == Emit(UpdateViewerCount(s.viewerCount), To(s.master.value))
  {
    SendTo(s.master, UpdateViewerCount(s.viewerCount))
  }

  /** `connect(sid, environ)` with the `HTTP_REFERER` header (absent is ""). */
  function Connect(s: Registry, sid: Sid, referer: string): (r: Step)
    ensures Classify(referer) == Unknown ==> r.next == s
    ensures r.next.master == (if Classify(referer) == Master then Some(sid) else s.master)
    ensures r.next.control == (if Classify(referer) == Control then Some(sid) else s.control)
    ensures r.next.viewerCount == s.viewerCount + (if Classify(referer) == Viewer then 1 else 0)
    ensures r.next.recognitionState == s.recognitionState
    ensures r.next.history == s.history && r.next.sessionId == s.sessionId
    // the newcomer is sent the history, unchanged, and only it
    ensures Emit(LoadHistory(s.history), To(sid)) in r.emits
    ensures forall e :: e in r.emits && e.event.LoadHistory? ==> e == Emit(LoadHistory(s.history), To(sid))
    // the recognition state goes to master and control newcomers only
    ensures (exists e :: e in r.emits && e.event.RecognitionState?) <==> Classify(referer) in {Master, Control}
    ensures forall e :: e in r.emits && e.event.RecognitionState? ==>
      e == Emit(RecognitionState(s.recognitionState), To(sid))
    // the count notification is last, and goes to the registered master
    ensures r.next.master.Some? ==>
      r.emits[|r.emits| - 1] == Emit(UpdateViewerCount(r.next.viewerCount), To(r.next.master.value))
    ensures forall e :: e in r.emits && e.event.UpdateViewerCount? ==>
      r.next.master.Some? && e == Emit(UpdateViewerCount(r.next.viewerCount), To(r.next.master.value))
    ensures forall e :: e in r.emits ==> e.event.RecognitionState? || e.event.LoadHistory? || e.event.UpdateViewerCount?
    // in order: the state (master/control only), the history once, the count (registered master only)
    ensures |r.emits| == (if Classify(referer) in {Master, Control} then 1 else 0) + 1 + (if r.next.master.Some? then 1 else 0)
    ensures Classify(referer) in {Master, Control} ==> r.emits[0] == Emit(RecognitionState(s.recognitionState), To(sid))
    ensures r.emits[if Classify(referer) in {Master, Control} then 1 else 0] == Emit(LoadHistory(s.history), To(sid))
  {
    var role := Classify(referer);
    var next := match role
      case Master => s.(master := Some(sid))
      case Viewer => s.(viewerCount := s.viewerCount + 1)
      case Control => s.(control := Some(sid))
      case Unknown => s;
    var greeting := if role == Master || role == Control then [Emit(RecognitionState(s.recognitionState), To(sid))] else [];
    var emits := greeting + [Emit(LoadHistory(s.history), To(sid))] + NotifyMaster(next);
    assert emits[|greeting|] == Emit(LoadHistory(s.history), To(sid));
    Step(next, emits)
  }

  /** `disconnect(sid)`: a slot holder frees its slot; any other socket
      (viewer, unknown, or a displaced former slot holder) counts as a
      viewer leaving. */
  function Disconnect(s: Registry, sid: Sid): (r: Step)
    ensures r.next.recognitionState == s.recognitionState
    ensures r.next.history == s.history && r.next.sessionId == s.sessionId
    ensures s.master == Some(sid) ==> r.next == s.(master := None) && r.emits == []
    ensures s.master != Some(sid) && s.control == Some(sid) ==> r.next == s.(control := None) && r.emits == []
    ensures s.master != Some(sid) && s.control != Some(sid) ==>
      && r.next.master == s.master && r.next.control == s.control
      && (s.viewerCount > 0 ==> r.next.viewerCount + 1 == s.viewerCount)
      && (s.viewerCount == 0 ==> r.next.viewerCount == 0)
      && r.emits == SendTo(s.master, UpdateViewerCount(r.next.viewerCount))
    ensures r.next.viewerCount <= s.viewerCount
  {
    if s.master == Some(sid) then Step(s.(master := None), [])
    else if s.control == Some(sid) then Step(s.(control := None), [])
    else
      var next := s.(viewerCount := if s.viewerCount > 0 then s.viewerCount - 1 else 0);
      Step(next, NotifyMaster(next))
  }

  /** `(data.get(key) or "").strip() == ""`: absent, null, or only
      whitespace. */
  predicate Blank(f: Field<string>)
    ensures !f.Value? || f.v == "" ==> Blank(f)
    ensures f.Value? && f.v != "" && !Text.PyIsSpace(f.v[0]) ==> !Blank(f)
  {
    !f.Value? || Text.PyBlank(f.v)
  }

  /** The check at the top of `new_translation`. */
  predicate Accepted(data: Message)
    ensures Accepted(data) ==> data.fr.Value? && data.es.Value? && |data.fr.v| > 0 && |data.es.v| > 0
  {
    !Blank(data.fr) && !Blank(data.es)
  }

  /** `data.get("lang", "unknown")`: the default applies only when the key is
      absent; an explicit null is kept. */
  function LangOrUnknown(data: Message): (f: Field<string>)
    ensures data.lang == Missing ==> f == Value("unknown")
    ensures data.lang != Missing ==> f == data.lang
  {
    if data.lang == Missing then Value("unknown") else data.lang
  }

  /** The `display_message` payload: a copy of the input with
      `source_language` and `is_final` set. */
  function Broadcast(data: Message): (m: Message)
    ensures m.fr == data.fr && m.es == data.es && m.lang == data.lang && m.timestamp == data.timestamp
    ensures m.sourceLanguage == LangOrUnknown(data)
    ensures m.isFinal.Value? && (m.isFinal.v <==> IsTrue(data.isFinal))
  {
    data.(sourceLanguage := LangOrUnknown(data), isFinal := Value(IsTrue(data.isFinal)))
  }

  /** Whether an accepted message ends up in `history`: it is final, the
      database write succeeded, and the `timestamp` key is present (reading
      `data["timestamp"]` raises otherwise, and the handler swallows it). */
  predicate Kept(data: Message, persisted: bool)
    ensures Kept(data, persisted) ==> persisted && data.isFinal == Value(true) && data.fr.Value? && data.es.Value?
    ensures !persisted || data.isFinal != Value(true) || data.timestamp == Missing ==> !Kept(data, persisted)
  {
    Accepted(data) && IsTrue(data.isFinal) && persisted && data.timestamp != Missing
  }

  /** The history line built from a kept message. */
  function HistoryEntry(data: Message): (e: Entry)
    requires Kept(data, true)
    ensures Value(e.fr) == data.fr && Value(e.es) == data.es
    ensures e.timestamp == data.timestamp && e.sourceLanguage == LangOrUnknown(data)
  {
    Entry(data.fr.v, data.es.v, data.timestamp, LangOrUnknown(data))
  }

  /** `new_translation(sid, data)`. `persisted` is the outcome of the
      database write `add_message`, an external call. */
  function NewTranslation(s: Registry, sid: Sid, data: Message, persisted: bool): (r: Step)
    ensures !Accepted(data) ==> r == Step(s, [])
    ensures Accepted(data) ==> r.emits == [Emit(DisplayMessage(Broadcast(data)), AllExcept(sid))]
    ensures r.next == s.(history := r.next.history)
    ensures !IsTrue(data.isFinal) ==> r.next == s
    ensures Kept(data, persisted) ==> r.next.history == s.history + [HistoryEntry(data)]
    ensures !Kept(data, persisted) ==> r.next.history == s.history
  {
    if !Accepted(data) then Step(s, [])
    else
      var shown := [Emit(DisplayMessage(Broadcast(data)), AllExcept(sid))];
      if Kept(data, persisted) then Step(s.(history := s.history + [HistoryEntry(data)]), shown)
      else Step(s, shown)
  }

  /** `remote_start_recognition` (start = true) and `remote_stop_recognition`
      (start = false), from any socket. */
  function RemoteCommand(s: Registry, start: bool): (r: Step)
    ensures r.next == s.(recognitionState := start)
    ensures |r.emits| <= 2
    ensures forall e :: e in r.emits ==>
      && e.to.To?
      && ((e.event == (if start then StartRecognitionCommand else StopRecognitionCommand) && s.master == Some(e.to.sid))
          || (e.event == RecognitionState(start) && s.control == Some(e.to.sid)))
    ensures (exists e :: e in r.emits && e.event == (if start then StartRecognitionCommand else StopRecognitionCommand))
      <==> s.master.Some?
    ensures (exists e :: e in r.emits && e.event == RecognitionState(start)) <==> s.control.Some?
    // the command to the master comes first
    ensures |r.emits| == (if s.master.Some? then 1 else 0) + (if s.control.Some? then 1 else 0)
    ensures s.master.Some? ==>
      r.emits[0] == Emit(if start then StartRecognitionCommand else StopRecognitionCommand, To(s.master.value))
  {
    var command := if start then StartRecognitionCommand else StopRecognitionCommand;
    Step(s.(recognitionState := start), SendTo(s.master, command) + SendTo(s.control, RecognitionState(start)))
  }

  /** `update_recognition_state(sid, state)`: the master's own report. Only
      control is told; the master is not echoed. */
  function UpdateRecognitionState(s: Registry, listening: bool): (r: Step)
    ensures r.next == s.(recognitionState := listening)
    ensures r.emits != [] <==> s.control.Some?
    ensures |r.emits| <= 1
    ensures forall e :: e in r.emits ==> e.event == RecognitionState(listening) && e.to.To? && s.control == Some(e.to.sid)
  {
    Step(s.(recognitionState := listening), SendTo(s.control, RecognitionState(listening)))
  }

  /** `sync_viewer_count()`, given the set of sockets the transport reports
      as connected. Only the master is discounted, not control. */
  function SyncViewerCount(s: Registry, participants: set<Sid>): (r: Step)
    ensures r.next.control == s.control && r.next.recognitionState == s.recognitionState
    ensures r.next.history == s.history && r.next.sessionId == s.sessionId
    ensures r.next.master == (if s.master.Some? && s.master.value in participants then s.master else None)
    ensures r.next.master.Some? ==> r.next.viewerCount + 1 == |participants|
    ensures r.next.master.None? ==> r.next.viewerCount == |participants|
    ensures r.emits == SendTo(r.next.master, UpdateViewerCount(r.next.viewerCount))
  {
    var live := s.master.Some? && s.master.value in participants;
    var count := |participants| - (if live then 1 else 0);
    var next := s.(master := if live then s.master else None, viewerCount := if count > 0 then count else 0);
    Step(next, if live then [Emit(UpdateViewerCount(next.viewerCount), To(s.master.value))] else [])
  }

  /** `start_new_conversation()`, given the id of the conversation the
      database created, or None when `create_conversation` failed. */
  function StartNewConversation(s: Registry, created: Option<int>): (r: Step)
    ensures created.None? ==> r == Step(s, [])
    ensures created.Some? ==> r.next == s.(history := [], sessionId := created.value)
    ensures created.Some? ==> r.emits == [Emit(ClearScreen, Everyone)]
  {
    match created
    case None => Step(s, [])
    case Some(id) => Step(s.(history := [], sessionId := id), [Emit(ClearScreen, Everyone)])
  }

  /** The dictionary `get_socket_statistics()` returns, without its
      timestamp. */
  datatype Stats = Stats(totalConnected: nat, masterConnected: bool, masterSid: Option<Sid>, viewerCount: nat)

  /** `get_socket_statistics()`: every socket but a registered master is
      counted as a viewer; unlike the reconciliation, a registered master is
      discounted even when it is not among the participants. */
  function Statistics(s: Registry, participants: set<Sid>): (st: Stats)
    ensures st.totalConnected == |participants|
    ensures st.masterConnected <==> s.master.Some?
    ensures st.masterSid == s.master
    ensures st.viewerCount <= st.totalConnected
    ensures st.viewerCount + (if s.master.Some? && participants != {} then 1 else 0) == |participants|
  {
    var count := |participants| - (if s.master.Some? then 1 else 0);
    Stats(|participants|, s.master.Some?, s.master, if count > 0 then count else 0)
  }

  /** One event reaching the hub. */
  datatype Input =
    | ConnectIn(sid: Sid, referer: string)
    | DisconnectIn(sid: Sid)
    | TranslationIn(sender: Sid, data: Message, persisted: bool)
    | RemoteStartIn(sender: Sid)
    | RemoteStopIn(sender: Sid)
    | StateReportIn(sender: Sid, listening: bool)
    | SyncIn(participants: set<Sid>)
    | NewConversationIn(created: Option<int>)

  /** The handler an input runs. */
  function Handle(s: Registry, i: Input): Step
  {
    match i
    case ConnectIn(sid, referer) => Connect(s, sid, referer)
    case DisconnectIn(sid) => Disconnect(s, sid)
    case TranslationIn(sender, data, persisted) => NewTranslation(s, sender, data, persisted)
    case RemoteStartIn(_) => RemoteCommand(s, true)
    case RemoteStopIn(_) => RemoteCommand(s, false)
    case StateReportIn(_, listening) => UpdateRecognitionState(s, listening)
    case SyncIn(participants) => SyncViewerCount(s, participants)
    case NewConversationIn(created) => StartNewConversation(s, created)
  }

  /** The registry after handling `ins` in order, starting from `s`. */
  function Run(s: Registry, ins: seq<Input>): Registry
    decreases |ins|
  {
    if ins == [] then s else Handle(Run(s, ins[..|ins| - 1]), ins[|ins| - 1]).next
  }

  /** The recognition flag after input `i`, given the flag before it. */
  function FlagAfter(i: Input, before: bool): bool
  {
    match i
    case RemoteStartIn(_) => true
    case RemoteStopIn(_) => false
    case StateReportIn(_, listening) => listening
    case _ => before
  }

  /** The recognition flag as the trace last set it: by the latest start,
      stop or state report, or `initial` if there is none. */
  function LastRecognitionWrite(ins: seq<Input>, initial: bool): bool
    decreases |ins|
  {
    if ins == [] then initial
    else FlagAfter(ins[|ins| - 1], LastRecognitionWrite(ins[..|ins| - 1], initial))
  }

  /** Only starts, stops and state reports write the flag. */
  lemma HandleSetsFlag(s: Registry, i: Input)
    ensures Handle(s, i).next.recognitionState == FlagAfter(i, s.recognitionState)
  {
  }

  /** Last writer wins: whatever connected or disconnected in between, the
      flag holds the value of the latest recognition command or report. */
  lemma {:induction false} LastWriterWins(s: Registry, ins: seq<Input>)
    ensures Run(s, ins).recognitionState == LastRecognitionWrite(ins, s.recognitionState)
    decreases |ins|
  {
    if ins != [] {
      var prefix := ins[..|ins| - 1];
      LastWriterWins(s, prefix);
      assert Run(s, ins) == Handle(Run(s, prefix), ins[|ins| - 1]).next;
      HandleSetsFlag(Run(s, prefix), ins[|ins| - 1]);
    }
  }

  /** The history line input `i` contributes, if any. */
  function StoredBy(i: Input): seq<Entry>
  {
    if i.TranslationIn? && Kept(i.data, i.persisted) then [HistoryEntry(i.data)] else []
  }

  /** The history lines a trace contributes: the kept translations, in
      arrival order. */
  function Stored(ins: seq<Input>): seq<Entry>
    decreases |ins|
  {
    if ins == [] then [] else Stored(ins[..|ins| - 1]) + StoredBy(ins[|ins| - 1])
  }

  /** No input of the trace opens a new conversation. */
  predicate SameConversation(ins: seq<Input>)
  {
    forall i :: 0 <= i < |ins| ==> !(ins[i].NewConversationIn? && ins[i].created.Some?)
  }

  /** A trace of one conversation without its last input is one too. */
  lemma SameConversationPrefix(ins: seq<Input>)
    requires SameConversation(ins) && ins != []
    ensures SameConversation(ins[..|ins| - 1])
    ensures !(ins[|ins| - 1].NewConversationIn? && ins[|ins| - 1].created.Some?)
  {
    var prefix := ins[..|ins| - 1];
    forall i | 0 <= i < |prefix| ensures !(prefix[i].NewConversationIn? && prefix[i].created.Some?) {
      assert prefix[i] == ins[i];
    }
  }

  /** Any input but a successful new conversation appends what it stores,
      and keeps the conversation id. */
  lemma HandleAppends(s: Registry, i: Input)
    requires !(i.NewConversationIn? && i.created.Some?)
    ensures Handle(s, i).next.history == s.history + StoredBy(i)
    ensures Handle(s, i).next.sessionId == s.sessionId
  {
  }

  /** Within one conversation, the history is append-only and grows by
      exactly the final, persisted translations, in order; interim messages,
      rejected messages and every other event leave it alone. */
  lemma {:induction false} HistoryAppendOnly(s: Registry, ins: seq<Input>)
    requires SameConversation(ins)
    ensures Run(s, ins).history == s.history + Stored(ins)
    decreases |ins|
  {
    if ins != [] {
      var prefix := ins[..|ins| - 1];
      SameConversationPrefix(ins);
      HistoryAppendOnly(s, prefix);
      assert Run(s, ins) == Handle(Run(s, prefix), ins[|ins| - 1]).next;
      HandleAppends(Run(s, prefix), ins[|ins| - 1]);
    }
  }

  /** A socket that joins late is replayed exactly the lines kept so far,
      however many interim messages were broadcast in between. */
  lemma LateJoinerReplay(s: Registry, ins: seq<Input>, sid: Sid, referer: string)
    requires SameConversation(ins)
    ensures Emit(LoadHistory(s.history + Stored(ins)), To(sid)) in Connect(Run(s, ins), sid, referer).emits
  {
    HistoryAppendOnly(s, ins);
  }

  /** A final message without a `timestamp` key is written to the database
      but does not enter the in-memory history, so late joiners do not see
      it until the process restarts and reloads the conversation. */
  lemma FinalWithoutTimestampNotReplayed(s: Registry, sid: Sid, data: Message)
    requires Accepted(data) && IsTrue(data.isFinal) && data.timestamp == Missing
    ensures NewTranslation(s, sid, data, true).next.history == s.history
    ensures NewTranslation(s, sid, data, true).emits == [Emit(DisplayMessage(Broadcast(data)), AllExcept(sid))]
  {
  }

  /** After a reconciliation, the statistics endpoint reports the count the
      reconciliation stored (the pair `sync_socket_count_endpoint` returns). */
  lemma SyncAgreesWithStatistics(s: Registry, participants: set<Sid>)
    ensures Statistics(SyncViewerCount(s, participants).next, participants).viewerCount
         == SyncViewerCount(s, participants).next.viewerCount
  {
  }

  /** A viewer that connects and leaves again, without ever holding a slot,
      leaves the registry as it found it. */
  lemma ViewerVisitLeavesNoTrace(s: Registry, sid: Sid, referer: string)
    requires Classify(referer) == Viewer
    requires s.master != Some(sid) && s.control != Some(sid)
    ensures Disconnect(Connect(s, sid, referer).next, sid).next == s
    ensures Disconnect(Connect(s, sid, referer).next, sid).emits == NotifyMaster(s)
  {
  }

  /** A socket of unknown kind is not counted when it connects, but its
      disconnect is counted as a viewer leaving: the stored count drifts
      below the number of viewers until the next reconciliation. */
  lemma UnknownVisitLowersCount(s: Registry, sid: Sid, referer: string)
    requires Classify(referer) == Unknown
    requires s.master != Some(sid) && s.control != Some(sid) && s.viewerCount > 0
    ensures Disconnect(Connect(s, sid, referer).next, sid).next == s.(viewerCount := s.viewerCount - 1)
  {
  }

  /** A master displaced by a newer master is no longer in its slot, so its
      disconnect is counted as a viewer leaving: the count drops by one
      although no viewer left, and the newer master stays registered. */
  lemma DisplacedMasterCountsAsViewer(s: Registry, a: Sid, b: Sid)
    requires a != b && s.control != Some(a) && s.viewerCount > 0
    ensures var t := Run(s, [ConnectIn(a, "/master"), ConnectIn(b, "/master"), DisconnectIn(a)]);
      && t.master == Some(b)
      && t.viewerCount + 1 == s.viewerCount
  {
    assert Classify("/master") == Master by {
      assert Text.OccursAt("/master", "/master", 0);
    }
    var ins := [ConnectIn(a, "/master"), ConnectIn(b, "/master"), DisconnectIn(a)];
    assert ins[..2][..1] == [ConnectIn(a, "/master")];
    assert ins[..2] == [ConnectIn(a, "/master"), ConnectIn(b, "/master")];
    assert [ConnectIn(a, "/master")][..0] == [];
    var c1 := ConnectIn(a, "/master");
    assert Run(s, [c1]) == Handle(Run(s, []), c1).next;
    assert Connect(s, a, "/master").next == s.(master := Some(a));
    var t1 := Run(s, ins[..2][..1]);
    assert t1 == s.(master := Some(a));
    var t2 := Run(s, ins[..2]);
    assert t2 == s.(master := Some(b));
    assert Run(s, ins) == Disconnect(t2, a).next;
  }

  /** Handling two traces one after the other is handling their
      concatenation. */
  lemma {:induction false} RunAppend(s: Registry, a: seq<Input>, b: seq<Input>)
    ensures Run(s, a + b) == Run(Run(s, a), b)
    decreases |b|
  {
    if b == [] {
      assert a + b == a;
    } else {
      var n := |b| - 1;
      assert (a + b)[..|a + b| - 1] == a + b[..n];
      RunAppend(s, a, b[..n]);
    }
  }

  /** Once a new conversation is started, the history holds exactly the
      lines kept since, whatever it held before. */
  lemma NewConversationStartsAfresh(s: Registry, before: seq<Input>, id: int, after: seq<Input>)
    requires SameConversation(after)
    ensures Run(s, before + [NewConversationIn(Some(id))] + after).history == Stored(after)
    ensures Run(s, before + [NewConversationIn(Some(id))] + after).sessionId == id
  {
    var started := before + [NewConversationIn(Some(id))];
    RunAppend(s, started, after);
    assert started[..|started| - 1] == before;
    var t := Run(s, started);
    assert t.history == [] && t.sessionId == id;
    HistoryAppendOnly(t, after);
    SessionKept(t, after);
  }

  /** Within one conversation the session id does not change. */
  lemma {:induction false} SessionKept(s: Registry, ins: seq<Input>)
    requires SameConversation(ins)
    ensures Run(s, ins).sessionId == s.sessionId
    decreases |ins|
  {
    if ins != [] {
      var prefix := ins[..|ins| - 1];
      SameConversationPrefix(ins);
      SessionKept(s, prefix);
      assert Run(s, ins) == Handle(Run(s, prefix), ins[|ins| - 1]).next;
      HandleAppends(Run(s, prefix), ins[|ins| - 1]);
    }
  }

  /** The reconciliation counts a connected control page as a viewer. */
  lemma SyncCountsControl(s: Registry, m: Sid, c: Sid, v: Sid)
    requires s.master == Some(m) && s.control == Some(c)
    requires m != c && c != v && m != v
    ensures SyncViewerCount(s, {m, c, v}).next.viewerCount == 2
    ensures SyncViewerCount(s, {m, c, v}).next.master == Some(m)
  {
    assert |{m, c, v}| == 3 by {
      assert {m, c, v} == {m} + {c} + {v};
    }
  }
}
