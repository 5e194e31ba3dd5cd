/** The values exchanged between the hub and its clients: socket ids,
    transcript messages as loosely typed JSON objects, history entries and
    the events the hub emits, each with its addressee. */
module Protocol {
  import Text

  datatype Option<+T> = None | Some(value: T)

  /** One key of a JSON object as the source reads it: the key may be
      absent, present with `null`, or present with a value. */
  datatype Field<+T> = Missing | Null | Value(v: T)

  /** A socket id. The transport never hands out an empty id, so a
      registered slot is truthy exactly when it holds a sid. */
  type Sid = s: string | s != "" witness "sid"

  /** Truthiness of a boolean key (`if data.get("is_final")` in Python,
      `if (data.is_final)` in JavaScript). */
  predicate IsTrue(f: Field<bool>)
  {
    f == Value(true)
  }

  /** A transcript message as the master sends it in `new_translation` and
      as clients receive it in `display_message` and `load_history`. */
  datatype Message = Message(
    fr: Field<string>,
    es: Field<string>,
    lang: Field<string>,
    sourceLanguage: Field<string>,
    isFinal: Field<bool>,
    timestamp: Field<string>)

  /** One line of the in-memory history: the keys `fr`, `es`, `timestamp`
      and `source_language` (app.py:496-503). The timestamp and the
      language are copied as received, so either may be `null`. */
  datatype Entry = Entry(fr: string, es: string, timestamp: Field<string>, sourceLanguage: Field<string>)

  /** The check both browser `MessageManager.addMessage` versions make
      first: `fr` and `es` are present, not null, and not blank after
      JavaScript's `trim()`. */
  predicate ClientAccepts(m: Message)
    // an absent, null or empty text is refused
    ensures ClientAccepts(m) ==> m.fr.Value? && m.es.Value? && |m.fr.v| > 0 && |m.es.v| > 0
  {
    m.fr.Value? && m.es.Value? && !Text.JsBlank(m.fr.v) && !Text.JsBlank(m.es.v)
  }

  /** Texts that start with a visible character are accepted. */
  lemma VisibleTextsAccepted(m: Message)
    requires m.fr.Value? && m.es.Value? && m.fr.v != "" && m.es.v != ""
    requires !Text.JsIsSpace(m.fr.v[0]) && !Text.JsIsSpace(m.es.v[0])
    ensures ClientAccepts(m)
  {
  }

  /** The messages with `is_final` set to true, as the v0.2 `load_history`
      listener does to each entry before adding it. */
  function MarkFinal(msgs: seq<Message>): (r: seq<Message>)
    ensures |r| == |msgs|
    ensures forall i :: 0 <= i < |msgs| ==> r[i] == msgs[i].(isFinal := Value(true))

  {
    seq(|msgs|, i requires 0 <= i < |msgs| => msgs[i].(isFinal := Value(true)))
  }

  /** How a history entry looks to a browser: a JSON object with the four
      keys of the entry and no `lang` or `is_final` key. */
  function EntryMessage(e: Entry): (m: Message)
    ensures m.fr == Value(e.fr) && m.es == Value(e.es)
    ensures m.timestamp == e.timestamp && m.sourceLanguage == e.sourceLanguage
    ensures m.lang == Missing && m.isFinal == Missing
  {
    Message(Value(e.fr), Value(e.es), Missing, e.sourceLanguage, Missing, e.timestamp)
  }

  /** The events the hub emits, with their payloads. */
  datatype Event =
    | RecognitionState(listening: bool)
    | LoadHistory(history: seq<Entry>)
    | UpdateViewerCount(count: nat)
    | DisplayMessage(message: Message)
    | ClearScreen
    | StartRecognitionCommand
    | StopRecognitionCommand
  {
    /** The event's name on the wire. */
    function Name(): string
    {
      match this
      case RecognitionState(_) => "recognition_state"
      case LoadHistory(_) => "load_history"
      case UpdateViewerCount(_) => "update_viewer_count"
      case DisplayMessage(_) => "display_message"
      case ClearScreen => "clear_screen"
      case StartRecognitionCommand => "start_recognition_command"
      case StopRecognitionCommand => "stop_recognition_command"
    }
  }

  /** Who an emit reaches: `to=sid`, `skip_sid=sid`, or no addressing. */
  datatype Addressee = To(sid: Sid) | AllExcept(skipped: Sid) | Everyone

  /** One `sio.emit` call. */
  datatype Emit = Emit(event: Event, to: Addressee)

  /** An emit to the holder of a role slot, if the slot is held, as in
      `if sid_registry.get(role): await sio.emit(event, to=sid_registry[role])`. */
  function SendTo(slot: Option<Sid>, event: Event): (r: seq<Emit>)
    ensures |r| <= 1
    ensures r != [] <==> slot.Some?
    ensures forall e :: e in r ==> e.event == event && e.to.To? && slot == Some(e.to.sid)
  {
    if slot.Some? then [Emit(event, To(slot.value))] else []
  }
}
