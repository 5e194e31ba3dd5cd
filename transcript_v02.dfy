/** The browser transcript of static/js/message-manager-v0.2.js, without
    the DOM. Rows carry a time cell per language column besides their text
    and temporary flag. A final message settles the temporary row in place,
    or appends a settled row when there is none; an interim message
    rewrites the temporary row's text, or appends a temporary row. */
module TranscriptV02 {
  import opened Protocol
  import Text

  /** What a row's time cell shows: the message's time (the formatting by
      `toLocaleTimeString` is not modelled), the placeholder "??:??" when
      the message had no timestamp, or a non-breaking space. */
  datatype TimeCell = Clock(timestamp: string) | Placeholder | Blank

  /** A `.msg-row`; `temp` is the `temp` class (with `opacity-60 italic`). */
  datatype Row = Row(fr: string, es: string, temp: bool, frTime: TimeCell, esTime: TimeCell)

  /** At most one temporary row, and if there is one it is the last row. */
  predicate WellPlaced(rows: seq<Row>)
  {
    forall i :: 0 <= i < |rows| && rows[i].temp ==> i == |rows| - 1
  }

  /** `data.source_language || data.lang || 'unknown'`. */
  function SourceLanguage(m: Message): (lang: string)
    ensures m.sourceLanguage.Value? && m.sourceLanguage.v != "" ==> lang == m.sourceLanguage.v
    ensures !(m.sourceLanguage.Value? && m.sourceLanguage.v != "") && m.lang.Value? && m.lang.v != "" ==> lang == m.lang.v
    ensures !(m.sourceLanguage.Value? && m.sourceLanguage.v != "") && !(m.lang.Value? && m.lang.v != "") ==> lang == "unknown"
  {
    if m.sourceLanguage.Value? && m.sourceLanguage.v != "" then m.sourceLanguage.v
    else if m.lang.Value? && m.lang.v != "" then m.lang.v
    else "unknown"
  }

  /** The time text of a message: its timestamp, or "??:??" without one. */
  function TimeOf(m: Message): (t: TimeCell)
    ensures t != Blank
    ensures t.Clock? <==> m.timestamp.Value? && m.timestamp.v != ""
    ensures t.Clock? ==> m.timestamp.Value? && t.timestamp == m.timestamp.v
  {
    if m.timestamp.Value? && m.timestamp.v != "" then Clock(m.timestamp.v) else Placeholder
  }

  /** The French column shows the time iff the source language mentions "fr". */
  function FrTime(m: Message): (t: TimeCell)
    ensures t != Blank <==> Text.Occurs("fr", SourceLanguage(m))
    ensures t != Blank ==> t == TimeOf(m)
  {
    if Text.Contains(SourceLanguage(m), "fr") then TimeOf(m) else Blank
  }

  /** The Spanish column shows the time iff the source language mentions "es". */
  function EsTime(m: Message): (t: TimeCell)
    ensures t != Blank <==> Text.Occurs("es", SourceLanguage(m))
    ensures t != Blank ==> t == TimeOf(m)
  {
    if Text.Contains(SourceLanguage(m), "es") then TimeOf(m) else Blank
  }

  /** `querySelector('.msg-row.temp')`: the position of the first temporary
      row, or `|rows|` when there is none. */
  function FirstTemp(rows: seq<Row>): (i: nat)
    ensures i <= |rows|
    ensures i < |rows| ==> rows[i].temp
    ensures forall j :: 0 <= j < i ==> !rows[j].temp
    decreases |rows|
  {
    if rows == [] || rows[0].temp then 0 else 1 + FirstTemp(rows[1..])
  }

  /** A row built fresh for `m` by `_buildRowHtml`. */
  function FreshRow(m: Message, temp: bool): (r: Row)
    requires ClientAccepts(m)
    ensures r.fr == m.fr.v && r.es == m.es.v && r.temp == temp
    ensures r.frTime != Blank <==> Text.Occurs("fr", SourceLanguage(m))
    ensures r.esTime != Blank <==> Text.Occurs("es", SourceLanguage(m))
    // a shown time cell holds the message's time
    ensures r.frTime != Blank ==> r.frTime == TimeOf(m)
    ensures r.esTime != Blank ==> r.esTime == TimeOf(m)
  {
    Row(m.fr.v, m.es.v, temp, FrTime(m), EsTime(m))
  }

  /** `addMessage(data)` on the rows of the page. */
  function Add(rows: seq<Row>, m: Message): (r: seq<Row>)
    ensures !ClientAccepts(m) ==> r == rows
    ensures ClientAccepts(m) ==> var t := FirstTemp(rows);
      // one row is touched: the temporary row, or a new last row
      && |r| == (if t < |rows| then |rows| else |rows| + 1)
      && (forall j :: 0 <= j < |rows| && j != t ==> r[j] == rows[j])
      // it takes the new text, and is temporary iff the message is not final
      && r[t].fr == m.fr.v && r[t].es == m.es.v && r[t].temp == !IsTrue(m.isFinal)
      // its time cells are rewritten, except when an interim message updates a temporary row
      && (IsTrue(m.isFinal) || t == |rows| ==> r[t].frTime == FrTime(m) && r[t].esTime == EsTime(m))
      && (!IsTrue(m.isFinal) && t < |rows| ==> r[t].frTime == rows[t].frTime && r[t].esTime == rows[t].esTime)
  {
    if !ClientAccepts(m) then rows
    else
      var t := FirstTemp(rows);
      if IsTrue(m.isFinal) then
        if t < |rows| then rows[t := FreshRow(m, false)] else rows + [FreshRow(m, false)]
      else
        if t < |rows| then rows[t := rows[t].(fr := m.fr.v, es := m.es.v)] else rows + [FreshRow(m, true)]
  }

  /** `addMessage` keeps the temporary row, if any, in last position. On
      such rows it settles the last row in place for a final message, and
      leaves no temporary row behind. */
  lemma AddKeepsWellPlaced(rows: seq<Row>, m: Message)
    requires WellPlaced(rows)
    ensures WellPlaced(Add(rows, m))
    ensures ClientAccepts(m) && IsTrue(m.isFinal) ==> forall x :: x in Add(rows, m) ==> !x.temp
    ensures ClientAccepts(m) && IsTrue(m.isFinal) && rows != [] && rows[|rows| - 1].temp ==>
      Add(rows, m) == rows[..|rows| - 1] + [FreshRow(m, false)]
  {
    var t := FirstTemp(rows);
    if t < |rows| {
      assert t == |rows| - 1;
    }
    if ClientAccepts(m) && IsTrue(m.isFinal) && rows != [] && rows[|rows| - 1].temp {
      assert rows[..|rows| - 1] + [FreshRow(m, false)] == rows[|rows| - 1 := FreshRow(m, false)];
    }
  }

  /** The rows after adding `msgs` in order. */
  function Replay(rows: seq<Row>, msgs: seq<Message>): seq<Row>
    decreases |msgs|
  {
    if msgs == [] then rows else Add(Replay(rows, msgs[..|msgs| - 1]), msgs[|msgs| - 1])
  }

  /** Replaying keeps the temporary row, if any, in last position. */
  lemma {:induction false} ReplayKeepsWellPlaced(rows: seq<Row>, msgs: seq<Message>)
    requires WellPlaced(rows)
    ensures WellPlaced(Replay(rows, msgs))
    decreases |msgs|
  {
    if msgs != [] {
      ReplayKeepsWellPlaced(rows, msgs[..|msgs| - 1]);
      AddKeepsWellPlaced(Replay(rows, msgs[..|msgs| - 1]), msgs[|msgs| - 1]);
    }
  }

  /** The settled rows a sequence of messages produces: one per acceptable
      message, in order. */
  function ShownRows(msgs: seq<Message>): (r: seq<Row>)
    ensures forall x :: x in r ==> !x.temp
    decreases |msgs|
  {
    if msgs == [] then []
    else
      var m := msgs[|msgs| - 1];
      ShownRows(msgs[..|msgs| - 1]) + (if ClientAccepts(m) then [FreshRow(m, false)] else [])
  }

  /** Replaying messages marked final on a page without temporary rows
      appends every acceptable message as a settled row, in order. */
  lemma {:induction false} ReplayMarkedShowsAll(rows: seq<Row>, msgs: seq<Message>)
    requires forall x :: x in rows ==> !x.temp
    ensures Replay(rows, MarkFinal(msgs)) == rows + ShownRows(msgs)
    decreases |msgs|
  {
    if msgs != [] {
      var n := |msgs| - 1;
      var marked := MarkFinal(msgs);
      assert marked[..n] == MarkFinal(msgs[..n]);
      ReplayMarkedShowsAll(rows, msgs[..n]);
      var before := rows + ShownRows(msgs[..n]);
      assert Replay(rows, marked) == Add(before, marked[n]);
      var m := msgs[n];
      assert marked[n] == m.(isFinal := Value(true));
      assert FirstTemp(before) == |before|;
      assert ShownRows(msgs) == ShownRows(msgs[..n]) + (if ClientAccepts(m) then [FreshRow(m, false)] else []);
    }
  }

  /** The page's `MessageManager`, reduced to the rows of `#conversation`. */
  class MessageManager {
    var rows: seq<Row>

    /** `initial` is what `#conversation` holds when the page loads. */
    constructor (initial: seq<Row>)
      ensures rows == initial
    {
      rows := initial;
    }

    /** `addMessage(data)`. */
    method AddMessage(m: Message)
      modifies this
      ensures rows == Add(old(rows), m)
    {
      if !m.fr.Value? || !m.es.Value? || Text.JsBlank(m.fr.v) || Text.JsBlank(m.es.v) {
        return;
      }
      var time := TimeOf(m);
      var lang := SourceLanguage(m);
      var frTime := if Text.Contains(lang, "fr") then time else Blank;
      var esTime := if Text.Contains(lang, "es") then time else Blank;
      var t := FirstTemp(rows);
      if IsTrue(m.isFinal) {
        if t < |rows| {
          rows := rows[t := Row(m.fr.v, m.es.v, false, frTime, esTime)];
        } else {
          rows := rows + [Row(m.fr.v, m.es.v, false, frTime, esTime)];
        }
      } else {
        if t < |rows| {
          rows := rows[t := rows[t].(fr := m.fr.v, es := m.es.v)];
        } else {
          rows := rows + [Row(m.fr.v, m.es.v, true, frTime, esTime)];
        }
      }
    }

    /** `clearConversation()`, run by the `clear_screen` listener. */
    method ClearConversation()
      modifies this
      ensures rows == []
    {
      rows := [];
    }

    /** The `load_history` listener: empties the page, then marks each
        entry final and adds it. */
    method LoadHistory(history: seq<Message>)
      modifies this
      ensures rows == Replay([], MarkFinal(history))
      ensures rows == ShownRows(history)
    {
      ClearConversation();
      var i := 0;
      while i < |history|
        invariant 0 <= i <= |history|
        invariant rows == Replay([], MarkFinal(history)[..i])
      {
        assert MarkFinal(history)[..i + 1][..i] == MarkFinal(history)[..i];
        var data := history[i].(isFinal := Value(true));
        AddMessage(data);
        i := i + 1;
      }
      assert MarkFinal(history)[..|history|] == MarkFinal(history);
      ReplayMarkedShowsAll([], history);
    }
  }
}
