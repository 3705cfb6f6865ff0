/**
 The group history put in front of a turn of a shared session: a seed on the first turn, and on
 a later mention what the session has not been given yet.
 */
module CatchUp {
  import opened Common
  import opened CatchUpLines
  import opened DeliveredIds

  const FETCH_ROWS := 500

  /** A stored group message; `line` is the text it is shown as. */
  datatype Row = Row(id: string, outbound: bool, command: bool, line: string)

  function Pick(rows: seq<Row>, p: Row -> bool): seq<Row> {
    if rows == [] then []
    else Pick(rows[..|rows| - 1], p) + (if p(Last(rows)) then [Last(rows)] else [])
  }

  lemma {:induction false} PickMembers(rows: seq<Row>, p: Row -> bool)
    ensures forall r :: r in Pick(rows, p) <==> r in rows && p(r)
  {
    if rows != [] {
      PickMembers(rows[..|rows| - 1], p);
      assert rows == rows[..|rows| - 1] + [Last(rows)];
    }
  }

  function Ids(rows: seq<Row>): (ids: seq<string>)
    ensures |ids| == |rows| && forall i :: 0 <= i < |rows| ==> ids[i] == rows[i].id
  {
    seq(|rows|, i requires 0 <= i < |rows| => rows[i].id)
  }

  function Lines(rows: seq<Row>): (lines: seq<string>)
    ensures |lines| == |rows| && forall i :: 0 <= i < |rows| ==> lines[i] == rows[i].line
  {
    seq(|rows|, i requires 0 <= i < |rows| => rows[i].line)
  }

  function NotInBatch(rows: seq<Row>, batch: seq<string>): seq<Row> {
    Pick(rows, (r: Row) => r.id !in batch)
  }

  function Unseen(rows: seq<Row>, batch: seq<string>, delivered: seq<string>): seq<Row> {
    Pick(rows, (r: Row) => !r.outbound && r.id !in batch && r.id !in delivered)
  }

  function Commands(rows: seq<Row>): seq<Row> {
    Pick(rows, (r: Row) => r.command)
  }

  function Conversation(rows: seq<Row>): seq<Row> {
    Pick(rows, (r: Row) => !r.command)
  }

  /** `rows[-n:]`, which for zero is all of them. */
  function LastRows(rows: seq<Row>, n: nat): seq<Row> {
    if n == 0 || |rows| <= n then rows else rows[|rows| - n..]
  }

  /** The lines shown, and what the closing line says of the rest. */
  datatype Context = Context(lines: seq<string>, leftOut: nat, more: bool)

  /**
   One turn with the rows the store returned: the session's first, a later one that mentions the
   agent, or any other. `batch` are the ids of the turn's own messages.
   */
  datatype Turn =
    | First(rows: seq<Row>, batch: seq<string>)
    | Mention(rows: seq<Row>, batch: seq<string>)
    | Plain(batch: seq<string>)

  /** The ids a turn records, in order. */
  function Given(delivered: seq<string>, turn: Turn): seq<string> {
    match turn
    case First(rows, batch) => Ids(NotInBatch(rows, batch)) + batch
    case Mention(rows, batch) =>
      var unseen := Unseen(rows, batch, delivered);
      Ids(Commands(unseen)) + Ids(Conversation(unseen)) + batch
    case Plain(batch) => batch
  }

  /** The rows that a turn shows or counts as left out. */
  function Entering(delivered: seq<string>, turn: Turn): seq<Row> {
    match turn
    case First(_, _) => []
    case Mention(rows, batch) => Conversation(Unseen(rows, batch, delivered))
    case Plain(_) => []
  }

  class GroupHistory {
    var delivered: seq<string>

    predicate Valid()
      reads this
    {
      Distinct(delivered)
    }

    constructor ()
      ensures Valid() && delivered == []
    {
      delivered := [];
    }

    method RememberDelivered(ids: seq<string>)
      requires Valid()
      modifies this
      ensures Valid() && delivered == Remember(old(delivered), ids)
    {
      var i := 0;
      while i < |ids|
        invariant 0 <= i <= |ids|
        invariant delivered == MoveAll(old(delivered), ids[..i])
      {
        assert ids[..i + 1][..i] == ids[..i];
        if ids[i] != "" {
          delivered := Drop(delivered, ids[i]) + [ids[i]];
        }
        i := i + 1;
      }
      assert ids[..i] == ids;
      ghost var moved := delivered;
      while |delivered| > DELIVERED_MAX
        invariant |delivered| <= |moved| && delivered == moved[|moved| - |delivered|..]
        invariant |moved| > DELIVERED_MAX ==> |delivered| >= DELIVERED_MAX
        invariant |moved| <= DELIVERED_MAX ==> delivered == moved
      {
        delivered := delivered[1..];
      }
      MoveAllDistinct(old(delivered), ids);
    }

    method BuildSeed(rows: seq<Row>, batch: seq<string>, recentMessages: nat, budget: int)
      returns (context: Option<Context>)
      requires Valid()
      modifies this
      ensures Valid() && delivered == Remember(old(delivered), Ids(NotInBatch(rows, batch)))
      ensures var shown := LastRows(Conversation(NotInBatch(rows, batch)), recentMessages);
        if shown == [] then context == None
        else
          && context.Some? && KeepsMost(Lines(shown), budget, context.value.lines)
          && context.value.leftOut == 0 && !context.value.more
    {
      var others := NotInBatch(rows, batch);
      var shown := LastRows(Conversation(others), recentMessages);
      var kept := KeepNewest(Lines(shown), budget);
      RememberDelivered(Ids(others));
      KeptUnlessEmpty(Lines(shown), budget, kept);
      context := if kept == [] then None else Some(Context(kept, 0, false));
    }

    method BuildUnseen(rows: seq<Row>, batch: seq<string>, budget: int) returns (context: Option<Context>)
      requires Valid()
      modifies this
      ensures Valid()
      ensures var unseen := Unseen(rows, batch, old(delivered));
        && delivered == Remember(old(delivered), Ids(Commands(unseen)) + Ids(Conversation(unseen)))
        && if Conversation(unseen) == [] then context == None
           else
             && context.Some?
             && KeepsMost(Lines(Conversation(unseen)), budget, context.value.lines)
             && |context.value.lines| + context.value.leftOut == |Conversation(unseen)|
             && (context.value.more <==> |rows| >= FETCH_ROWS + |batch|)
    {
      var windowFull := |rows| >= FETCH_ROWS + |batch|;
      ghost var before := delivered;
      var unseen := Unseen(rows, batch, delivered);
      RememberDelivered(Ids(Commands(unseen)));
      var shown := Conversation(unseen);
      RememberTwice(before, Ids(Commands(unseen)), Ids(shown));
      if shown == [] {
        assert Ids(Commands(unseen)) + Ids(shown) == Ids(Commands(unseen));
        return None;
      }
      RememberDelivered(Ids(shown));
      var kept := KeepNewest(Lines(shown), budget);
      KeptUnlessEmpty(Lines(shown), budget, kept);
      context := Some(Context(kept, |shown| - |kept|, windowFull));
    }

    method ContextForTurn(turn: Turn, recentMessages: nat, seedBudget: int, budget: int)
      returns (context: Option<Context>)
      requires Valid()
      modifies this
      ensures Valid() && delivered == Remember(old(delivered), Given(old(delivered), turn))
      ensures turn.Plain? ==> context == None
      ensures turn.First? ==>
        var shown := LastRows(Conversation(NotInBatch(turn.rows, turn.batch)), recentMessages);
        && (context == None <==> shown == [])
        && (context.Some? ==>
            && KeepsMost(Lines(shown), seedBudget, context.value.lines)
            && context.value.leftOut == 0 && !context.value.more)
      ensures turn.Mention? ==> (context == None <==> Entering(old(delivered), turn) == [])
      ensures turn.Mention? && context.Some? ==>
        && KeepsMost(Lines(Entering(old(delivered), turn)), budget, context.value.lines)
        && |context.value.lines| + context.value.leftOut == |Entering(old(delivered), turn)|
        && (context.value.more <==> |turn.rows| >= FETCH_ROWS + |turn.batch|)
    {
      context := None;
      ghost var before := delivered;
      match turn {
        case First(rows, batch) =>
          context := BuildSeed(rows, batch, recentMessages, seedBudget);
          RememberTwice(before, Ids(NotInBatch(rows, batch)), batch);
          RememberDelivered(batch);
        case Mention(rows, batch) =>
          context := BuildUnseen(rows, batch, budget);
          ghost var unseen := Unseen(rows, batch, before);
          RememberTwice(before, Ids(Commands(unseen)) + Ids(Conversation(unseen)), batch);
          RememberDelivered(batch);
        case Plain(batch) =>
          RememberDelivered(batch);
      }
    }
  }

  lemma KeptUnlessEmpty(lines: seq<string>, budget: int, kept: seq<string>)
    requires KeepsMost(lines, budget, kept)
    ensures (kept == [] <==> lines == []) && |kept| <= |lines|
  {
  }

  // --- Over many turns ---------------------------------------------------------------------------

  function Delivered(turns: seq<Turn>): seq<string> {
    if turns == [] then []
    else
      var before := Delivered(turns[..|turns| - 1]);
      Remember(before, Given(before, Last(turns)))
  }

  /** All ids recorded, turn after turn. */
  function AllGiven(turns: seq<Turn>): seq<string> {
    if turns == [] then []
    else AllGiven(turns[..|turns| - 1]) + Given(Delivered(turns[..|turns| - 1]), Last(turns))
  }

  lemma {:induction false} DeliveredIsNewest(turns: seq<Turn>)
    ensures Delivered(turns) == Remember([], AllGiven(turns)) && Distinct(Delivered(turns))
  {
    if turns != [] {
      var before := turns[..|turns| - 1];
      DeliveredIsNewest(before);
      RememberTwice([], AllGiven(before), Given(Delivered(before), Last(turns)));
    }
    MoveAllDistinct([], AllGiven(turns));
  }

  predicate Entered(rows: seq<Row>, id: string) {
    exists r :: r in rows && r.id == id
  }

  /** The store returned a message of that id which somebody else wrote and which is no command. */
  predicate Offered(turn: Turn, id: string)
    requires turn.Mention?
  {
    id !in turn.batch && exists r :: r in turn.rows && r.id == id && !r.outbound && !r.command
  }

  lemma EnteringExactly(delivered: seq<string>, turn: Turn, id: string)
    requires turn.Mention?
    ensures Entered(Entering(delivered, turn), id) <==> Offered(turn, id) && id !in delivered
  {
    var p := (r: Row) => !r.outbound && r.id !in turn.batch && r.id !in delivered;
    var q := (r: Row) => !r.command;
    var unseen := Unseen(turn.rows, turn.batch, delivered);
    PickMembers(turn.rows, p);
    PickMembers(unseen, q);
    assert unseen == Pick(turn.rows, p) && Conversation(unseen) == Pick(unseen, q);
    if Offered(turn, id) && id !in delivered {
      var r :| r in turn.rows && r.id == id && !r.outbound && !r.command;
      assert r in unseen && r in Conversation(unseen);
    }
  }

  /**
   After any turns, a mention shows or counts an offered message exactly unless it was recorded
   before, in a batch, a seed, a command or a catch-up, and no more than 500 different ids were
   recorded from then on.
   */
  lemma EntersExactlyOnce(turns: seq<Turn>, turn: Turn, id: string)
    requires turn.Mention? && id != ""
    ensures Entered(Entering(Delivered(turns), turn), id)
       <==> Offered(turn, id) && !GivenLately(AllGiven(turns), id, DELIVERED_MAX)
  {
    EnteringExactly(Delivered(turns), turn, id);
    DeliveredIsNewest(turns);
    RememberedExactlyWhenLate(AllGiven(turns), id, DELIVERED_MAX);
  }

  lemma PrefixOfMore(a: seq<string>, b: seq<string>, c: seq<string>)
    requires a <= b
    ensures a <= b + c
  {
  }

  lemma AllGivenSnoc(turns: seq<Turn>, turn: Turn)
    ensures AllGiven(turns + [turn]) == AllGiven(turns) + Given(Delivered(turns), turn)
  {
    assert (turns + [turn])[..|turns|] == turns && Last(turns + [turn]) == turn;
  }

  /** Later turns only add to what was recorded. */
  lemma {:induction false} AllGivenGrows(turns: seq<Turn>, later: seq<Turn>)
    ensures AllGiven(turns) <= AllGiven(turns + later)
  {
    if later == [] {
      assert turns + later == turns;
    } else {
      var before, turn := later[..|later| - 1], Last(later);
      assert turns + later == (turns + before) + [turn];
      AllGivenGrows(turns, before);
      AllGivenSnoc(turns + before, turn);
      PrefixOfMore(AllGiven(turns), AllGiven(turns + before), Given(Delivered(turns + before), turn));
    }
  }

  lemma EnteringIsGiven(delivered: seq<string>, turn: Turn, id: string)
    requires Entered(Entering(delivered, turn), id)
    ensures id in Given(delivered, turn)
  {
    var rows := Entering(delivered, turn);
    var r :| r in rows && r.id == id;
    var k :| 0 <= k < |rows| && rows[k] == r;
    assert Ids(rows)[k] == id;
    assert id in Ids(rows);
  }

  /** After these turns, the next one shows the message or counts it as left out. */
  predicate Shows(turns: seq<Turn>, turn: Turn, id: string) {
    Entered(Entering(Delivered(turns), turn), id)
  }

  /** The different ids recorded from a position of the record on. */
  function GivenSince(turns: seq<Turn>, start: nat): set<string> {
    IdsFrom(AllGiven(turns), Min(start, |AllGiven(turns)|))
  }

  /** A message that entered one catch-up enters a later one only after more than 500 ids in between. */
  lemma NotShownTwice(turns: seq<Turn>, earlier: seq<Turn>, shown: Turn, between: seq<Turn>, turn: Turn, id: string)
    requires turns == earlier + [shown] + between && turn.Mention? && id != ""
    requires Shows(earlier, shown, id) && Shows(turns, turn, id)
    ensures |GivenSince(turns, |AllGiven(earlier)|)| > DELIVERED_MAX
  {
    EntersExactlyOnce(turns, turn, id);
    EnteringIsGiven(Delivered(earlier), shown, id);
    AllGivenSnoc(earlier, shown);
    AllGivenGrows(earlier + [shown], between);
    GivenThenLate(AllGiven(earlier), Given(Delivered(earlier), shown), AllGiven(turns), id);
  }

  lemma GivenThenLate(before: seq<string>, given: seq<string>, all: seq<string>, id: string)
    requires before + given <= all && id in given && !GivenLately(all, id, DELIVERED_MAX)
    ensures |IdsFrom(all, |before|)| > DELIVERED_MAX
  {
    var k :| 0 <= k < |given| && given[k] == id;
    assert (before + given)[|before| + k] == id;
    FewerFromLater(all, |before|, |before| + k);
    assert !LateAt(all, id, |before| + k, DELIVERED_MAX);
  }
}
