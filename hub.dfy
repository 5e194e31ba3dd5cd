/** The hub as the server runs it: one process-wide object whose fields
    are the entries of `sid_registry`, the `history` list and the current
    conversation id, updated in place by one method per Socket.IO handler.
    Each method returns the emits it makes, in order, and is proved to do
    exactly what the matching function of `Relay` prescribes. */
module Server {
  import opened Protocol
  import Text
  import Relay

  class Hub {
    var master: Option<Sid>
    var control: Option<Sid>
    var viewerCount: nat
    var recognitionState: bool
    var history: seq<Entry>
    var sessionId: int

    /** The registry these fields hold. */
    function State(): Relay.Registry
      reads this
    {
      Relay.Registry(master, control, viewerCount, recognitionState, history, sessionId)
    }

    /** The state at import time (app.py:44-45, 362-367). */
    constructor ()
      ensures State() == Relay.Initial
    {
      master, control, viewerCount, recognitionState := None, None, 0, false;
      history, sessionId := [], 1;
    }

    method Connect(sid: Sid, referer: string) returns (role: Relay.Role, out: seq<Emit>)
      modifies this
      ensures role == Relay.Classify(referer)
      ensures State() == Relay.Connect(old(State()), sid, referer).next
      ensures out == Relay.Connect(old(State()), sid, referer).emits
    {
      if Text.Contains(referer, "/master") {
        role := Relay.Master;
      } else if Text.Contains(referer, "/viewer") {
        role := Relay.Viewer;
      } else if Text.Contains(referer, "/control") {
        role := Relay.Control;
      } else {
        role := Relay.Unknown;
      }
      var greeting := [];
      if role == Relay.Master {
        master := Some(sid);
        greeting := [Emit(RecognitionState(recognitionState), To(sid))];
      } else if role == Relay.Viewer {
        viewerCount := viewerCount + 1;
      } else if role == Relay.Control {
        control := Some(sid);
        greeting := [Emit(RecognitionState(recognitionState), To(sid))];
      }
      var notice := [];
      if master.Some? {
        notice := [Emit(UpdateViewerCount(viewerCount), To(master.value))];
      }
      out := greeting + [Emit(LoadHistory(history), To(sid))] + notice;
    }

    method Disconnect(sid: Sid) returns (out: seq<Emit>)
      modifies this
      ensures State() == Relay.Disconnect(old(State()), sid).next
      ensures out == Relay.Disconnect(old(State()), sid).emits
    {
      out := [];
      if master == Some(sid) {
        master := None;
      } else if control == Some(sid) {
        control := None;
      } else {
        viewerCount := if viewerCount > 0 then viewerCount - 1 else 0;
        if master.Some? {
          out := [Emit(UpdateViewerCount(viewerCount), To(master.value))];
        }
      }
    }

    /** `persisted` is whether the database write succeeded. */
    method NewTranslation(sid: Sid, data: Message, persisted: bool) returns (out: seq<Emit>)
      modifies this
      ensures State() == Relay.NewTranslation(old(State()), sid, data, persisted).next
      ensures out == Relay.NewTranslation(old(State()), sid, data, persisted).emits
    {
      if Relay.Blank(data.fr) || Relay.Blank(data.es) {
        return [];
      }
      var shown := data.(sourceLanguage := Relay.LangOrUnknown(data), isFinal := Value(IsTrue(data.isFinal)));
      out := [Emit(DisplayMessage(shown), AllExcept(sid))];
      if IsTrue(data.isFinal) && persisted && data.timestamp != Missing {
        history := history + [Entry(data.fr.v, data.es.v, data.timestamp, Relay.LangOrUnknown(data))];
      }
    }

    method RemoteStartRecognition(sender: Sid) returns (out: seq<Emit>)
      modifies this
      ensures State() == Relay.RemoteCommand(old(State()), true).next
      ensures out == Relay.RemoteCommand(old(State()), true).emits
    {
      recognitionState := true;
      out := [];
      if master.Some? {
        out := out + [Emit(StartRecognitionCommand, To(master.value))];
      }
      if control.Some? {
        out := out + [Emit(RecognitionState(true), To(control.value))];
      }
    }

    method RemoteStopRecognition(sender: Sid) returns (out: seq<Emit>)
      modifies this
      ensures State() == Relay.RemoteCommand(old(State()), false).next
      ensures out == Relay.RemoteCommand(old(State()), false).emits
    {
      recognitionState := false;
      out := [];
      if master.Some? {
        out := out + [Emit(StopRecognitionCommand, To(master.value))];
      }
      if control.Some? {
        out := out + [Emit(RecognitionState(false), To(control.value))];
      }
    }

    method UpdateRecognitionState(sender: Sid, listening: bool) returns (out: seq<Emit>)
      modifies this
      ensures State() == Relay.UpdateRecognitionState(old(State()), listening).next
      ensures out == Relay.UpdateRecognitionState(old(State()), listening).emits
    {
      recognitionState := listening;
      out := [];
      if control.Some? {
        out := [Emit(RecognitionState(listening), To(control.value))];
      }
    }

    /** `participants` is the set of sockets the transport reports as
        connected; `count` is the stored viewer count. */
    method SyncViewerCount(participants: set<Sid>) returns (count: nat, out: seq<Emit>)
      modifies this
      ensures State() == Relay.SyncViewerCount(old(State()), participants).next
      ensures out == Relay.SyncViewerCount(old(State()), participants).emits
      ensures count == viewerCount
    {
      var masterSid := master;
      var live := masterSid.Some? && masterSid.value in participants;
      if masterSid.Some? && !live {
        master := None;
      }
      var recount := |participants| - (if live then 1 else 0);
      viewerCount := if recount > 0 then recount else 0;
      out := [];
      if live {
        out := [Emit(UpdateViewerCount(viewerCount), To(masterSid.value))];
      }
      count := viewerCount;
    }

    /** `created` is the id of the conversation the database created, or
        None when that call failed; `(ok, id)` is the handler's result. */
    method StartNewConversation(created: Option<int>) returns (ok: bool, id: int, out: seq<Emit>)
      modifies this
      ensures State() == Relay.StartNewConversation(old(State()), created).next
      ensures out == Relay.StartNewConversation(old(State()), created).emits
      ensures ok == created.Some? && id == sessionId
    {
      if created.None? {
        return false, sessionId, [];
      }
      sessionId := created.value;
      history := [];
      out := [Emit(ClearScreen, Everyone)];
      ok, id := true, created.value;
    }

    /** `get_socket_statistics()`; reads the registry only. */
    method GetSocketStatistics(participants: set<Sid>) returns (st: Relay.Stats)
      ensures st == Relay.Statistics(State(), participants)
    {
      var total := |participants|;
      var masterConnected := master.Some?;
      var count := total - (if masterConnected then 1 else 0);
      st := Relay.Stats(total, masterConnected, master, if count > 0 then count else 0);
    }
  }
}
