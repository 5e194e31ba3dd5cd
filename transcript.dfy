/** The browser transcript of static/js/message-manager.js, without the
    DOM: the `#conversation` element is a sequence of rows, each with its
    French and Spanish text and whether it is a temporary (interim) row.
    Every accepted message first deletes all temporary rows and then
    appends one new row. */
module Transcript {
  import opened Protocol
  import Text

  /** A `.msg-row`; `temp` is the `temp` class. */
  datatype Row = Row(fr: string, es: string, temp: bool)

  /** At most one temporary row, and if there is one it is the last row. */
  predicate WellPlaced(rows: seq<Row>)
  {
    forall i :: 0 <= i < |rows| && rows[i].temp ==> i == |rows| - 1
  }

  /** The rows that are not temporary, in page order. */
  function NonTemp(rows: seq<Row>): (r: seq<Row>)
    ensures |r| <= |rows|
    ensures forall x :: x in r ==> x in rows && !x.temp
    ensures forall x :: x in rows && !x.temp ==> x in r
    decreases |rows|
  {
    if rows == [] then []
    else
      var last := rows[|rows| - 1];
      assert rows == rows[..|rows| - 1] + [last];
      NonTemp(rows[..|rows| - 1]) + (if last.temp then [] else [last])
  }

  /** Rows without a temporary one are left as they are by `NonTemp`. */
  lemma {:induction false} NonTempOfSettled(rows: seq<Row>)
    requires forall x :: x in rows ==> !x.temp
    ensures NonTemp(rows) == rows
    decreases |rows|
  {
    if rows != [] {
      var n := |rows| - 1;
      assert rows == rows[..n] + [rows[n]];
      NonTempOfSettled(rows[..n]);
      NonTempSnoc(rows[..n], rows[n]);
    }
  }

  /** Filtering distributes over appending one row. */
  lemma NonTempSnoc(rows: seq<Row>, x: Row)
    ensures NonTemp(rows + [x]) == NonTemp(rows) + (if x.temp then [] else [x])
  {
    assert (rows + [x])[..|rows|] == rows;
  }

  /** Taking out the row at position `|done|` of `done + rest`. */
  lemma SplitAt(done: seq<Row>, rest: seq<Row>)
    requires rest != []
    ensures (done + rest)[|done|] == rest[0]
    ensures (done + rest)[..|done|] + (done + rest)[|done| + 1..] == done + rest[1..]
    ensures done + rest == (done + [rest[0]]) + rest[1..]
  {
    assert (done + rest)[..|done|] == done;
    assert (done + rest)[|done| + 1..] == rest[1..];
  }

  /** The state of the removal loop after `k` rows of `orig`: `rows` holds
      the filtered first `k` rows followed by the rest, and `i` is the
      number of rows kept so far. */
  predicate Removing(orig: seq<Row>, k: nat, rows: seq<Row>, i: nat)
  {
    k <= |orig| && rows == NonTemp(orig[..k]) + orig[k..] && i == |NonTemp(orig[..k])|
  }

  /** One step of the removal loop: the row at position `i` is `orig[k]`;
      dropping it when it is temporary, or stepping over it otherwise,
      filters one more row. */
  lemma RemoveStep(orig: seq<Row>, k: nat, rows: seq<Row>, i: nat)
    requires k < |orig| && Removing(orig, k, rows, i)
    ensures i < |rows| && rows[i] == orig[k]
    ensures orig[k].temp ==> Removing(orig, k + 1, rows[..i] + rows[i + 1..], i)
    ensures !orig[k].temp ==> Removing(orig, k + 1, rows, i + 1)
  {
    assert orig[..k + 1] == orig[..k] + [orig[k]];
    NonTempSnoc(orig[..k], orig[k]);
    SplitAt(NonTemp(orig[..k]), orig[k..]);
  }

  /** When the removal loop has looked at every row, `rows` holds exactly
      the non-temporary rows of `orig`. */
  lemma RemoveDone(orig: seq<Row>, rows: seq<Row>, i: nat)
    requires Removing(orig, |orig|, rows, i)
    ensures rows == NonTemp(orig)
  {
    assert orig[..|orig|] == orig;
  }

  /** The row `addMessage(m)` appends. */
  function NewRow(m: Message): (r: Row)
    requires ClientAccepts(m)
    ensures r.fr == m.fr.v && r.es == m.es.v
    // an absent, null or false `is_final` makes the row temporary
    ensures r.temp <==> m.isFinal != Value(true)
  {
    Row(m.fr.v, m.es.v, !IsTrue(m.isFinal))
  }

  /** `addMessage(data)` on the rows of the page. */
  function Add(rows: seq<Row>, m: Message): (r: seq<Row>)
    ensures !ClientAccepts(m) ==> r == rows
    ensures ClientAccepts(m) ==> |r| > 0 && r[..|r| - 1] == NonTemp(rows)
    ensures ClientAccepts(m) ==> r[|r| - 1] == Row(m.fr.v, m.es.v, !IsTrue(m.isFinal))
    // whatever the rows were, a temporary row can only be the last one
    ensures ClientAccepts(m) ==> WellPlaced(r)
    // non-temporary rows are never removed; their number grows iff the message is final
    ensures forall x :: x in rows && !x.temp ==> x in r
    ensures |NonTemp(r)| == |NonTemp(rows)| + (if ClientAccepts(m) && IsTrue(m.isFinal) then 1 else 0)
  {
    if !ClientAccepts(m) then rows
    else
      var r := NonTemp(rows) + [NewRow(m)];
      NonTempSnoc(NonTemp(rows), NewRow(m));
      NonTempOfSettled(NonTemp(rows));
      r
  }

  /** The rows after adding `msgs` in order. */
  function Replay(rows: seq<Row>, msgs: seq<Message>): seq<Row>
    decreases |msgs|
  {
    if msgs == [] then rows else Add(Replay(rows, msgs[..|msgs| - 1]), msgs[|msgs| - 1])
  }

  /** The last message of `msgs` that passes the client's check, if any. */
  function LastAccepted(msgs: seq<Message>): (r: Option<Message>)
    ensures r.Some? ==> r.value in msgs && ClientAccepts(r.value)
    decreases |msgs|
  {
    if msgs == [] then None
    else if ClientAccepts(msgs[|msgs| - 1]) then Some(msgs[|msgs| - 1])
    else LastAccepted(msgs[..|msgs| - 1])
  }

  /** Messages none of which is marked final, as the entries of the hub's
      history are. */
  predicate Unmarked(msgs: seq<Message>)
  {
    forall i :: 0 <= i < |msgs| ==> !IsTrue(msgs[i].isFinal)
  }

  /** Replaying messages that are not marked final leaves a single
      temporary row holding the last acceptable one: each deletes the row
      the previous one left. */
  lemma {:induction false} ReplayUnmarkedKeepsLast(msgs: seq<Message>)
    requires Unmarked(msgs)
    ensures Replay([], msgs) == match LastAccepted(msgs)
      case None => []
      case Some(m) => [Row(m.fr.v, m.es.v, true)]
    decreases |msgs|
  {
    if msgs != [] {
      var prefix := msgs[..|msgs| - 1];
      assert Unmarked(prefix) by {
        forall i | 0 <= i < |prefix| ensures !IsTrue(prefix[i].isFinal) {
          assert prefix[i] == msgs[i];
        }
      }
      ReplayUnmarkedKeepsLast(prefix);
      assert !IsTrue(msgs[|msgs| - 1].isFinal);
    }
  }

  /** The rows a sequence of final messages produces: one settled row per
      acceptable message, in order. */
  function ShownRows(msgs: seq<Message>): (r: seq<Row>)
    ensures forall x :: x in r ==> !x.temp
    decreases |msgs|
  {
    if msgs == [] then []
    else
      var m := msgs[|msgs| - 1];
      ShownRows(msgs[..|msgs| - 1]) + (if ClientAccepts(m) then [Row(m.fr.v, m.es.v, false)] else [])
  }

  /** Replaying messages marked final on a page without temporary rows
      appends every acceptable message as a settled row, in order. */
  lemma {:induction false} ReplayMarkedShowsAll(rows: seq<Row>, msgs: seq<Message>)
    requires forall x :: x in rows ==> !x.temp
    ensures Replay(rows, MarkFinal(msgs)) == rows + ShownRows(msgs)
    decreases |msgs|
  {
    if msgs != [] {
      ReplayMarkedShowsAll(rows, msgs[..|msgs| - 1]);
      ReplayMarkedStep(rows, msgs);
    }
  }

  /** The inductive step of `ReplayMarkedShowsAll`: one more message
      marked final appends its settled row, if any. */
  lemma ReplayMarkedStep(rows: seq<Row>, msgs: seq<Message>)
    requires msgs != [] && forall x :: x in rows ==> !x.temp
    requires Replay(rows, MarkFinal(msgs[..|msgs| - 1])) == rows + ShownRows(msgs[..|msgs| - 1])
    ensures Replay(rows, MarkFinal(msgs)) == rows + ShownRows(msgs)
  {
    var n := |msgs| - 1;
    var m := msgs[n];
    var marked := MarkFinal(msgs);
    assert marked[..n] == MarkFinal(msgs[..n]);
    assert marked[n] == m.(isFinal := Value(true));
    var before := rows + ShownRows(msgs[..n]);
    assert Replay(rows, marked) == Add(before, marked[n]);
    AddMarkedToSettled(before, m);
  }

  /** Adding a message marked final to a page without temporary rows
      appends it as a settled row, if the client accepts it. */
  lemma AddMarkedToSettled(rows: seq<Row>, m: Message)
    requires forall x :: x in rows ==> !x.temp
    ensures Add(rows, m.(isFinal := Value(true))) == rows + (if ClientAccepts(m) then [Row(m.fr.v, m.es.v, false)] else [])
  {
    NonTempOfSettled(rows);
  }

  /** The page's `MessageManager`, reduced to the rows of `#conversation`. */
  class MessageManager {
    var rows: seq<Row>

    /** `initial` is what `#conversation` holds when the page loads. */
    constructor (initial: seq<Row>)
      ensures rows == initial
    {
      rows := initial;
    }

    /** One iteration of the removal loop on the page: removes the row at
        position `i` if it is temporary, else steps over it, and returns
        the position of the next row to look at. */
    method RemoveOrSkip(ghost orig: seq<Row>, ghost k: nat, i: nat) returns (next: nat)
      requires k < |orig| && Removing(orig, k, rows, i)
      modifies this
      ensures Removing(orig, k + 1, rows, next)
    {
      RemoveStep(orig, k, rows, i);
      if rows[i].temp {
        rows := rows[..i] + rows[i + 1..];
        next := i;
      } else {
        next := i + 1;
      }
    }

    /** `temps.forEach(e => e.remove())`: deletes the temporary rows one by
        one, in page order. */
    method RemoveTemps()
      modifies this
      ensures rows == NonTemp(old(rows))
    {
      ghost var orig := rows;
      var n, i := |rows|, 0;
      for k := 0 to n
        invariant n == |orig| && Removing(orig, k, rows, i)
      {
        i := RemoveOrSkip(orig, k, i);
      }
      RemoveDone(orig, rows, i);
    }

    /** `addMessage(data)`. */
    method AddMessage(m: Message)
      modifies this
      ensures rows == Add(old(rows), m)
    {
      if !m.fr.Value? || !m.es.Value? || Text.JsBlank(m.fr.v) || Text.JsBlank(m.es.v) {
        return;
      }
      RemoveTemps();
      rows := rows + [Row(m.fr.v, m.es.v, !IsTrue(m.isFinal))];
    }

    /** The `load_history` listener: empties the page, then adds each entry
        as it came. */
    method LoadHistory(history: seq<Message>)
      modifies this
      ensures rows == Replay([], history)
    {
      rows := [];
      var i := 0;
      while i < |history|
        invariant 0 <= i <= |history|
        invariant rows == Replay([], history[..i])
      {
        assert history[..i + 1][..i] == history[..i];
        AddMessage(history[i]);
        i := i + 1;
      }
      assert history[..|history|] == history;
    }

    /** The `load_history` listener with each entry marked final before it
        is added, as the v0.2 manager does. */
    method LoadHistoryMarked(history: seq<Message>)
      modifies this
      ensures rows == Replay([], MarkFinal(history))
      ensures rows == ShownRows(history)
    {
      rows := [];
      var i := 0;
      while i < |history|
        invariant 0 <= i <= |history|
        invariant rows == Replay([], MarkFinal(history)[..i])
      {
        assert MarkFinal(history)[..i + 1][..i] == MarkFinal(history)[..i];
        AddMessage(history[i].(isFinal := Value(true)));
        i := i + 1;
      }
      assert MarkFinal(history)[..|history|] == MarkFinal(history);
      ReplayMarkedShowsAll([], history);
    }

    /** The `clear_screen` listener. */
    method ClearScreen()
      modifies this
      ensures rows == []
    {
      rows := [];
    }
  }
}
