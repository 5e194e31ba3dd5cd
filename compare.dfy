/** How the pieces fit together: the two transcript policies side by side,
    and what a browser that joins late shows of the hub's history. */
module Compare {
  import opened Protocol
  import Relay
  import Transcript
  import TranscriptV02
  import Text

  /** A v0.2 row without its time cells. */
  function Plain(r: TranscriptV02.Row): Transcript.Row
  {
    Transcript.Row(r.fr, r.es, r.temp)
  }

  function PlainRows(rows: seq<TranscriptV02.Row>): (r: seq<Transcript.Row>)
    ensures |r| == |rows|
    ensures forall i :: 0 <= i < |rows| ==> r[i] == Plain(rows[i])
  {
    seq(|rows|, i requires 0 <= i < |rows| => Plain(rows[i]))
  }

  /** On rows that keep the temporary row last, filtering out temporary rows
      drops at most that last row. */
  lemma NonTempOfWellPlaced(rows: seq<TranscriptV02.Row>)
    requires TranscriptV02.WellPlaced(rows)
    ensures rows != [] && rows[|rows| - 1].temp ==>
      Transcript.NonTemp(PlainRows(rows)) == PlainRows(rows[..|rows| - 1])
    ensures !(rows != [] && rows[|rows| - 1].temp) ==>
      Transcript.NonTemp(PlainRows(rows)) == PlainRows(rows)
  {
    if rows != [] && rows[|rows| - 1].temp {
      var n := |rows| - 1;
      assert PlainRows(rows) == PlainRows(rows[..n]) + [Plain(rows[n])];
      Transcript.NonTempSnoc(PlainRows(rows[..n]), Plain(rows[n]));
      Transcript.NonTempOfSettled(PlainRows(rows[..n]));
    } else {
      Transcript.NonTempOfSettled(PlainRows(rows));
    }
  }

  /** As long as the temporary row is the last row, the two versions of
      `addMessage` produce the same text and the same temporary flags:
      settling the temporary row in place (v0.2) and deleting it before
      appending (message-manager.js) coincide. Only the time cells, which
      message-manager.js does not show, tell them apart. */
  lemma PoliciesAgreeOnText(rows: seq<TranscriptV02.Row>, m: Message)
    requires TranscriptV02.WellPlaced(rows)
    ensures PlainRows(TranscriptV02.Add(rows, m)) == Transcript.Add(PlainRows(rows), m)
  {
    if ClientAccepts(m) {
      NonTempOfWellPlaced(rows);
      var t := TranscriptV02.FirstTemp(rows);
      var r := TranscriptV02.Add(rows, m);
      var row := Transcript.Row(m.fr.v, m.es.v, !IsTrue(m.isFinal));
      assert Plain(r[t]) == row;
      if t < |rows| {
        assert t == |rows| - 1;
        assert Transcript.Add(PlainRows(rows), m) == PlainRows(rows[..t]) + [row];
        assert r == rows[..t] + [r[t]];
        PlainRowsSnoc(rows[..t], r[t]);
      } else {
        assert Transcript.Add(PlainRows(rows), m) == PlainRows(rows) + [row];
        assert r == rows + [r[t]];
        PlainRowsSnoc(rows, r[t]);
      }
    }
  }

  lemma PlainRowsSnoc(rows: seq<TranscriptV02.Row>, x: TranscriptV02.Row)
    ensures PlainRows(rows + [x]) == PlainRows(rows) + [Plain(x)]
  {
  }

  /** The policies part ways once two temporary rows are on the page: v0.2
      settles the first in place and leaves the second, the
      message-manager.js version deletes both. */
  lemma PoliciesDifferOnTwoTempRows()
    ensures var a := TranscriptV02.Row("un", "uno", true, TranscriptV02.Blank, TranscriptV02.Blank);
            var b := TranscriptV02.Row("deux", "dos", true, TranscriptV02.Blank, TranscriptV02.Blank);
            var m := Message(Value("trois"), Value("tres"), Missing, Missing, Value(true), Missing);
            && |TranscriptV02.Add([a, b], m)| == 2
            && TranscriptV02.Add([a, b], m)[1] == b
            && TranscriptV02.Add([a, b], m)[0].fr == "trois" && TranscriptV02.Add([a, b], m)[0].es == "tres"
            && !TranscriptV02.Add([a, b], m)[0].temp
            && Transcript.Add(PlainRows([a, b]), m) == [Transcript.Row("trois", "tres", false)]
  {
    var a := TranscriptV02.Row("un", "uno", true, TranscriptV02.Blank, TranscriptV02.Blank);
    var b := TranscriptV02.Row("deux", "dos", true, TranscriptV02.Blank, TranscriptV02.Blank);
    var m := Message(Value("trois"), Value("tres"), Missing, Missing, Value(true), Missing);
    assert !Text.JsIsSpace(m.fr.v[0]) && !Text.JsIsSpace(m.es.v[0]);
    assert TranscriptV02.FirstTemp([a, b]) == 0;
    var plain := PlainRows([a, b]);
    assert plain == [Plain(a), Plain(b)];
    assert plain[..1] == [Plain(a)];
    assert Transcript.NonTemp(plain) == [];
  }

  /** The `load_history` payload as the browser receives it. */
  function EntryMessages(h: seq<Entry>): (r: seq<Message>)
    ensures |r| == |h|
    ensures forall i :: 0 <= i < |h| ==> r[i] == EntryMessage(h[i])
  {
    seq(|h|, i requires 0 <= i < |h| => EntryMessage(h[i]))
  }

  /** The hub's history entries carry no `is_final` key. */
  lemma EntriesUnmarked(h: seq<Entry>)
    ensures Transcript.Unmarked(EntryMessages(h))
  {
  }

  /** As written, the `load_history` listener of message-manager.js shows
      a late joiner at most one line of the hub's history, as a temporary row: the last
      entry it can display. */
  lemma LateJoinerSeesOnlyLastLine(h: seq<Entry>)
    ensures |Transcript.Replay([], EntryMessages(h))| <= 1
    ensures forall x :: x in Transcript.Replay([], EntryMessages(h)) ==> x.temp
  {
    Transcript.ReplayUnmarkedKeepsLast(EntryMessages(h));
  }

  /** Two lines of history replayed by the message-manager.js listener:
      only the second one is on the page, and as a temporary row. */
  lemma TwoLinesReplayedAsOne()
    ensures var h := [Entry("Bonjour", "Hola", Value("t1"), Value("fr")),
                      Entry("Merci", "Gracias", Value("t2"), Value("fr"))];
            Transcript.Replay([], EntryMessages(h)) == [Transcript.Row("Merci", "Gracias", true)]
  {
    var h := [Entry("Bonjour", "Hola", Value("t1"), Value("fr")),
              Entry("Merci", "Gracias", Value("t2"), Value("fr"))];
    var msgs := EntryMessages(h);
    assert !Text.JsIsSpace(msgs[1].fr.v[0]) && !Text.JsIsSpace(msgs[1].es.v[0]);
    assert Transcript.LastAccepted(msgs) == Some(msgs[1]);
    EntriesUnmarked(h);
    Transcript.ReplayUnmarkedKeepsLast(msgs);
  }

  /** With each entry marked final first, the message-manager.js listener
      shows a late joiner the whole history: one settled row per entry, in order,
      with the entry's text. */
  lemma LateJoinerSeesWholeHistory(h: seq<Entry>)
    requires forall e :: e in h ==> ClientAccepts(EntryMessage(e))
    ensures var shown := Transcript.Replay([], MarkFinal(EntryMessages(h)));
      && |shown| == |h|
      && forall i :: 0 <= i < |h| ==> shown[i] == Transcript.Row(h[i].fr, h[i].es, false)
  {
    Transcript.ReplayMarkedShowsAll([], EntryMessages(h));
    assert [] + Transcript.ShownRows(EntryMessages(h)) == Transcript.ShownRows(EntryMessages(h));
    ShownRowsOfEntries(h);
  }

  /** Both listeners, with each message marked final, show the same text. */
  lemma MarkedReplaysAgree(msgs: seq<Message>)
    ensures PlainRows(TranscriptV02.Replay([], MarkFinal(msgs))) == Transcript.Replay([], MarkFinal(msgs))
  {
    Transcript.ReplayMarkedShowsAll([], msgs);
    TranscriptV02.ReplayMarkedShowsAll([], msgs);
    assert [] + Transcript.ShownRows(msgs) == Transcript.ShownRows(msgs);
    assert [] + TranscriptV02.ShownRows(msgs) == TranscriptV02.ShownRows(msgs);
    ShownRowsAgree(msgs);
  }

  /** The settled rows of both versions carry the same text. */
  lemma {:induction false} ShownRowsAgree(msgs: seq<Message>)
    ensures PlainRows(TranscriptV02.ShownRows(msgs)) == Transcript.ShownRows(msgs)
    decreases |msgs|
  {
    if msgs != [] {
      var n := |msgs| - 1;
      var m := msgs[n];
      ShownRowsAgree(msgs[..n]);
      var v02 := TranscriptV02.ShownRows(msgs[..n]);
      if ClientAccepts(m) {
        PlainRowsSnoc(v02, TranscriptV02.FreshRow(m, false));
      } else {
        assert v02 + [] == v02;
      }
    }
  }

  /** The rows the message-manager.js version builds from settled history entries:
      the entries' texts, in order. */
  lemma {:induction false} ShownRowsOfEntries(h: seq<Entry>)
    requires forall e :: e in h ==> ClientAccepts(EntryMessage(e))
    ensures |Transcript.ShownRows(EntryMessages(h))| == |h|
    ensures forall i :: 0 <= i < |h| ==>
      Transcript.ShownRows(EntryMessages(h))[i] == Transcript.Row(h[i].fr, h[i].es, false)
    decreases |h|
  {
    if h != [] {
      var n := |h| - 1;
      var msgs := EntryMessages(h);
      assert msgs[..n] == EntryMessages(h[..n]);
      assert h[n] in h;
      assert forall e :: e in h[..n] ==> e in h;
      ShownRowsOfEntries(h[..n]);
      var before := Transcript.ShownRows(msgs[..n]);
      assert Transcript.ShownRows(msgs) == before + [Transcript.Row(h[n].fr, h[n].es, false)];
      forall i | 0 <= i < |h|
        ensures Transcript.ShownRows(msgs)[i] == Transcript.Row(h[i].fr, h[i].es, false)
      {
        if i < n {
          assert Transcript.ShownRows(msgs)[i] == before[i];
          assert h[..n][i] == h[i];
        }
      }
    }
  }

  /** A line whose French text is a lone byte-order mark is not blank for
      Python's `strip()` but is for JavaScript's `trim()`: the hub
      broadcasts it and keeps it in its history, and no browser shows it. */
  lemma ByteOrderMarkKeptButNotShown(s: Relay.Registry, sender: Sid)
    ensures var data := Message(Value("\U{FEFF}"), Value("Hola"), Value("fr"), Missing, Value(true), Value("t"));
      && Relay.Kept(data, true)
      && Relay.NewTranslation(s, sender, data, true).emits == [Emit(DisplayMessage(Relay.Broadcast(data)), AllExcept(sender))]
      && !ClientAccepts(Relay.Broadcast(data))
      && !ClientAccepts(EntryMessage(Relay.HistoryEntry(data)))
  {
    var data := Message(Value("\U{FEFF}"), Value("Hola"), Value("fr"), Missing, Value(true), Value("t"));
    assert !Text.PyIsSpace(data.fr.v[0]) && !Text.PyIsSpace(data.es.v[0]);
    assert Text.JsIsSpace(data.fr.v[0]);
  }
}
