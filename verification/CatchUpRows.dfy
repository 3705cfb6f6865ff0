/**
 Which rows a seed and a catch-up are made of, in which order, and which ids a turn records.
 */
module CatchUpRows {
  import opened Common
  import opened CatchUp

  // --- Rows and their places ----------------------------------------------------------------------

  /** The places are exactly those of the rows wanted. */
  predicate ExactlyThose(rows: seq<Row>, places: seq<nat>, wanted: Row -> bool) {
    forall i :: 0 <= i < |rows| ==> (i in places <==> wanted(rows[i]))
  }

  /** All that are wanted, or the given number of them, with none wanted after those left out. */
  predicate NewestOf(rows: seq<Row>, places: seq<nat>, wanted: Row -> bool, most: nat) {
    && (forall k :: 0 <= k < |places| ==> places[k] < |rows| && wanted(rows[places[k]]))
    && |places| <= most
    && forall i :: 0 <= i < |rows| && wanted(rows[i]) && i !in places ==>
         |places| == most && forall k :: 0 <= k < |places| ==> i < places[k]
  }

  lemma OneMoreRow(rows: seq<Row>, row: Row, places: seq<nat>, shown: seq<Row>, wanted: Row -> bool)
    requires FoundAt(rows, places, shown) && ExactlyThose(rows, places, wanted)
    ensures wanted(row) ==>
      && FoundAt(rows + [row], places + [|rows|], shown + [row])
      && ExactlyThose(rows + [row], places + [|rows|], wanted)
    ensures !wanted(row) ==> FoundAt(rows + [row], places, shown) && ExactlyThose(rows + [row], places, wanted)
  {
    var more, found := rows + [row], places + [|rows|];
    forall i | 0 <= i < |more|
      ensures i in found <==> i in places || i == |rows|
      ensures i == |rows| ==> i !in places
    {
    }
  }

  lemma {:induction false} PickedInOrder(rows: seq<Row>, p: Row -> bool) returns (places: seq<nat>)
    ensures FoundAt(rows, places, Pick(rows, p)) && ExactlyThose(rows, places, p)
  {
    hide FoundAt, ExactlyThose;
    places := [];
    if rows == [] {
      NothingFound(p);
    } else {
      var before := rows[..|rows| - 1];
      places := PickedInOrder(before, p);
      OneMoreRow(before, Last(rows), places, Pick(before, p), p);
      assert rows == before + [Last(rows)];
      assert Pick(before, p) + [] == Pick(before, p);
      places := if p(Last(rows)) then places + [|before|] else places;
    }
  }

  lemma NothingFound(p: Row -> bool)
    ensures FoundAt([], [], Pick([], p)) && ExactlyThose([], [], p)
  {
  }

  lemma PickSnoc(rows: seq<Row>, row: Row, p: Row -> bool)
    ensures Pick(rows + [row], p) == if p(row) then Pick(rows, p) + [row] else Pick(rows, p)
  {
    assert (rows + [row])[..|rows|] == rows && Last(rows + [row]) == row;
  }

  /** Picking from what was picked is picking by both. */
  lemma {:induction false} PickTwice(rows: seq<Row>, p: Row -> bool, q: Row -> bool, both: Row -> bool)
    requires forall r <- rows :: both(r) == (p(r) && q(r))
    ensures Pick(Pick(rows, p), q) == Pick(rows, both)
  {
    if rows != [] {
      var before, last := rows[..|rows| - 1], Last(rows);
      assert rows == before + [last];
      PickTwice(before, p, q, both);
      PickSnoc(before, last, p);
      PickSnoc(before, last, both);
      PickSnoc(Pick(before, p), last, q);
    }
  }

  lemma LastPlaces(rows: seq<Row>, places: seq<nat>, shown: seq<Row>, wanted: Row -> bool, most: nat)
    returns (last: seq<nat>)
    requires FoundAt(rows, places, shown) && ExactlyThose(rows, places, wanted) && most > 0
    ensures FoundAt(rows, last, LastRows(shown, most)) && NewestOf(rows, last, wanted, most)
  {
    last := if |places| <= most then places else places[|places| - most..];
    forall i | 0 <= i < |rows| && wanted(rows[i]) && i !in last
      ensures |last| == most && forall k :: 0 <= k < |last| ==> i < last[k]
    {
      assert i in places;
    }
  }

  // --- What is shown ----------------------------------------------------------------------------------

  /**
   A seed is made of the newest rows that are neither commands nor of the turn's own batch, oldest
   first: as many as the limit, or all of them.
   */
  lemma SeedIsNewest(rows: seq<Row>, batch: seq<string>, most: nat) returns (places: seq<nat>)
    requires most > 0
    ensures FoundAt(rows, places, LastRows(Conversation(NotInBatch(rows, batch)), most))
    ensures NewestOf(rows, places, (r: Row) => r.id !in batch && !r.command, most)
  {
    var p, q := (r: Row) => r.id !in batch, (r: Row) => !r.command;
    var wanted := (r: Row) => r.id !in batch && !r.command;
    PickTwice(rows, p, q, wanted);
    places := PickedInOrder(rows, wanted);
    places := LastPlaces(rows, places, Pick(rows, wanted), wanted, most);
  }

  /**
   A catch-up is made of the rows that others wrote and that are neither commands, nor of the batch,
   nor recorded before, in the order they are stored in.
   */
  lemma CatchUpInOrder(delivered: seq<string>, turn: Turn) returns (places: seq<nat>)
    requires turn.Mention?
    ensures FoundAt(turn.rows, places, Entering(delivered, turn))
    ensures forall i :: 0 <= i < |turn.rows| ==>
      (i in places <==> var r := turn.rows[i];
        !r.outbound && !r.command && r.id !in turn.batch && r.id !in delivered)
  {
    var batch := turn.batch;
    var p, q := (r: Row) => !r.outbound && r.id !in batch && r.id !in delivered, (r: Row) => !r.command;
    var wanted := (r: Row) => !r.outbound && !r.command && r.id !in batch && r.id !in delivered;
    PickTwice(turn.rows, p, q, wanted);
    places := PickedInOrder(turn.rows, wanted);
  }

  // --- What is recorded -------------------------------------------------------------------------------

  lemma IdOf(rows: seq<Row>, p: Row -> bool, id: string)
    ensures id in Ids(Pick(rows, p)) <==> exists r <- rows :: p(r) && r.id == id
  {
    PickMembers(rows, p);
    var picked := Pick(rows, p);
    if id in Ids(picked) {
      var k :| 0 <= k < |picked| && picked[k].id == id;
      assert picked[k] in picked;
    }
    if r :| r in rows && p(r) && r.id == id {
      var k :| 0 <= k < |picked| && picked[k] == r;
      assert Ids(picked)[k] == id;
    }
  }

  /**
   A turn records its own batch; a first turn all rows too, commands and the agent's own included;
   a mention all rows of others, commands included, that were not recorded before.
   */
  lemma RecordedExactly(delivered: seq<string>, turn: Turn, id: string)
    ensures id in Given(delivered, turn)
      <==> || id in turn.batch
           || (turn.First? && exists r <- turn.rows :: r.id == id)
           || (turn.Mention? && id !in delivered && exists r <- turn.rows :: r.id == id && !r.outbound)
  {
    match turn
    case Plain(_) =>
    case First(rows, batch) => IdOf(rows, (r: Row) => r.id !in batch, id);
    case Mention(rows, batch) =>
      var p := (r: Row) => !r.outbound && r.id !in batch && r.id !in delivered;
      CommandsAndRest(Pick(rows, p), id);
      IdOf(rows, p, id);
  }

  lemma CommandsAndRest(rows: seq<Row>, id: string)
    ensures id in Ids(Commands(rows)) + Ids(Conversation(rows)) <==> id in Ids(rows)
  {
    IdOf(rows, (r: Row) => r.command, id);
    IdOf(rows, (r: Row) => !r.command, id);
    if id in Ids(rows) {
      var k :| 0 <= k < |rows| && rows[k].id == id;
      assert rows[k] in rows;
    }
    if r :| r in rows && r.id == id {
      var k :| 0 <= k < |rows| && rows[k] == r;
      assert Ids(rows)[k] == id;
    }
  }

  function IdsAt(rows: seq<Row>, places: seq<nat>): seq<string>
    requires forall k :: 0 <= k < |places| ==> places[k] < |rows|
  {
    seq(|places|, k requires 0 <= k < |places| => rows[places[k]].id)
  }

  /** A first turn records the rows in order and then its batch. */
  lemma SeedRecordsInOrder(delivered: seq<string>, turn: Turn) returns (places: seq<nat>)
    requires turn.First?
    ensures Ascending(places) && ExactlyThose(turn.rows, places, (r: Row) => r.id !in turn.batch)
    ensures forall k :: 0 <= k < |places| ==> places[k] < |turn.rows|
    ensures Given(delivered, turn) == IdsAt(turn.rows, places) + turn.batch
  {
    var batch := turn.batch;
    var p := (r: Row) => r.id !in batch;
    places := PickedInOrder(turn.rows, p);
    assert Ids(Pick(turn.rows, p)) == IdsAt(turn.rows, places);
  }

  /** A mention records the commands in order, then the other rows in order, then its batch. */
  lemma CatchUpRecordsInOrder(delivered: seq<string>, turn: Turn) returns (commands: seq<nat>, others: seq<nat>)
    requires turn.Mention?
    ensures Ascending(commands) && Ascending(others)
    ensures forall k :: 0 <= k < |commands| ==> commands[k] < |turn.rows|
    ensures forall k :: 0 <= k < |others| ==> others[k] < |turn.rows|
    ensures forall i :: 0 <= i < |turn.rows| ==> var r := turn.rows[i];
      && (i in commands <==> r.command && !r.outbound && r.id !in turn.batch && r.id !in delivered)
      && (i in others <==> !r.command && !r.outbound && r.id !in turn.batch && r.id !in delivered)
    ensures Given(delivered, turn) == IdsAt(turn.rows, commands) + IdsAt(turn.rows, others) + turn.batch
  {
    var rows, batch := turn.rows, turn.batch;
    var p, q := (r: Row) => !r.outbound && r.id !in batch && r.id !in delivered, (r: Row) => r.command;
    var wanted := (r: Row) => r.command && !r.outbound && r.id !in batch && r.id !in delivered;
    PickTwice(rows, p, q, wanted);
    commands := PickedInOrder(rows, wanted);
    assert Ids(Pick(rows, wanted)) == IdsAt(rows, commands);
    others := CatchUpInOrder(delivered, turn);
    assert Ids(Entering(delivered, turn)) == IdsAt(rows, others);
  }
}
