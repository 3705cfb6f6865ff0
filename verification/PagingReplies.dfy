/**
 Paged reading with replies packed into their budget: how many entries a reply shows is what the
 packer chooses for the lines of the page and the cursors to them.
 */
module PagingReplies {
  import opened Common
  import opened Timestamps
  import opened HistoryPaging
  import opened PagingTheorems
  import Pack = ReplyPack

  /** How headers, entries and cursors are written. A cursor in the time form says no limit. */
  datatype Writer = Writer(
    header: nat -> Pack.Text,
    line: Entry -> Pack.Text,
    cursor: Request -> Pack.Text,
    narrow: Pack.Text)

  /** No line of an entry is empty. */
  ghost predicate LinesSaySomething(w: Writer) {
    forall e :: w.line(e) != []
  }

  function Lines(w: Writer, entries: seq<Entry>): (lines: seq<Pack.Text>)
    ensures |lines| == |entries|
  {
    seq(|entries|, i requires 0 <= i < |entries| => w.line(entries[i]))
  }

  /** The cursor text after the entries before `cut`, or after the whole page. */
  function More(w: Writer, page: Reply, q: Request, cut: Option<nat>): Pack.Text
    requires page.Page?
  {
    var shown := if cut.Some? && cut.value < |page.entries| then cut.value else |page.entries|;
    match Omitted(page, shown)
    case None => w.narrow
    case Some(e) => w.cursor(CursorTo(page, q, shown, e, 1))
  }

  function Packed(w: Writer, page: Reply, q: Request): Pack.Reply
    requires page.Page?
  {
    Pack.Reply(w.header, (cut: Option<nat>) => More(w, page, q, cut))
  }

  /** Units left for the entries of the page that a request reads. */
  function Room(w: Writer, page: Reply, q: Request): int
    requires page.Page?
  {
    Pack.Room(Packed(w, page, q), |page.entries|)
  }

  /** The packer shows this many of the page's entries. */
  ghost predicate Shows(w: Writer, page: Reply, q: Request, shown: nat)
    requires page.Page?
  {
    shown <= |page.entries| && Pack.Chosen(Packed(w, page, q), Lines(w, page.entries), page.next.Some?, shown)
  }

  /** The request of the i-th reply of a walk, if it gets that far. */
  function RequestAt(r: Reader, ledger: seq<Entry>, q: Request, script: seq<Choice>, i: nat): (next: Option<Request>)
    requires q.limit > 0 && i <= |script|
    ensures next.Some? ==> next.value.limit > 0
  {
    Follow(r, ledger, q, script[..i]).rest
  }

  predicate Reads(r: Reader, ledger: seq<Entry>, q: Request) {
    q.limit > 0 && Read(r, ledger, q).Page?
  }

  /** A walk whose replies the packer made. */
  ghost predicate PackedWalk(w: Writer, r: Reader, ledger: seq<Entry>, q: Request, script: seq<Choice>)
    requires q.limit > 0
  {
    forall i :: 0 <= i < |script| ==> PackedAt(w, r, ledger, RequestAt(r, ledger, q, script, i), script[i])
  }

  ghost predicate PackedAt(w: Writer, r: Reader, ledger: seq<Entry>, q: Option<Request>, choice: Choice) {
    q.Some? && Reads(r, ledger, q.value) ==> Shows(w, Read(r, ledger, q.value), q.value, choice.shown)
  }

  /** Every reply has room for a unit of an entry between two newlines. */
  ghost predicate RoomyWalk(w: Writer, r: Reader, ledger: seq<Entry>, q: Request, script: seq<Choice>)
    requires q.limit > 0
  {
    forall i :: 0 <= i < |script| ==> RoomyAt(w, r, ledger, RequestAt(r, ledger, q, script, i))
  }

  ghost predicate RoomyAt(w: Writer, r: Reader, ledger: seq<Entry>, q: Option<Request>) {
    q.Some? && Reads(r, ledger, q.value) ==> Room(w, Read(r, ledger, q.value), q.value) >= 3
  }

  /** With room a reply shows an entry; a truncated one without room shows none. */
  lemma ShowsWithRoom(w: Writer, page: Reply, q: Request, shown: nat)
    requires page.Page? && page.entries != [] && Shows(w, page, q, shown) && LinesSaySomething(w)
    ensures Room(w, page, q) >= 3 ==> shown > 0
    ensures (page.next.Some? || shown < |page.entries|) && Room(w, page, q) < 3 ==> shown == 0
  {
    if page.next.Some? || shown < |page.entries| {
      Pack.TruncatedShowsOneExactlyWhen(Packed(w, page, q), Lines(w, page.entries), page.next.Some?, shown);
    }
  }

  lemma RoomyReplyShows(w: Writer, r: Reader, ledger: seq<Entry>, q: Request, script: seq<Choice>, i: nat)
    requires Stored(r, ledger) && RangeRequest(r, q) && !LeakyFor(r, ledger, q) && LinesSaySomething(w)
    requires PackedWalk(w, r, ledger, q, script) && RoomyWalk(w, r, ledger, q, script) && i < |script|
    requires RangeOf(r, ledger, q) != []
    ensures ReplyShows(r, ledger, q, script, i)
  {
    var next := RequestAt(r, ledger, q, script, i);
    if next.Some? {
      PageAt(r, ledger, q, script[..i]);
      assert PackedAt(w, r, ledger, next, script[i]) && RoomyAt(w, r, ledger, next);
      ShowsWithRoom(w, Read(r, ledger, next.value), next.value, script[i].shown);
    }
  }

  /** A walk that has not ended has a page to read. */
  lemma PageAt(r: Reader, ledger: seq<Entry>, q: Request, script: seq<Choice>)
    requires Stored(r, ledger) && RangeRequest(r, q) && !LeakyFor(r, ledger, q) && RangeOf(r, ledger, q) != []
    requires Follow(r, ledger, q, script).rest.Some?
    ensures var walk := Follow(r, ledger, q, script);
      PageFrom(RangeOf(r, ledger, q), Read(r, ledger, walk.rest.value), |walk.shown|)
  {
    var start, end, walk := Bound(r.earliest, q.from_), Bound(r.latest, q.to), Follow(r, ledger, q, script);
    StartResumes(r, ledger, q);
    var at := FollowFrom(r, ledger, q, start, end, script, 0);
    if script != [] {
      SomethingIsLeft(r, ledger, q, script);
    }
    PageFromPosition(r, ledger, walk.rest.value, start, end, |walk.shown|);
  }

  /** With room in every reply the whole range is read within as many replies as it has entries. */
  lemma RoomyWalkEnds(w: Writer, r: Reader, ledger: seq<Entry>, q: Request, script: seq<Choice>)
    requires Stored(r, ledger) && RangeRequest(r, q) && !LeakyFor(r, ledger, q) && LinesSaySomething(w)
    requires PackedWalk(w, r, ledger, q, script) && RoomyWalk(w, r, ledger, q, script)
    requires script != [] && |script| >= |RangeOf(r, ledger, q)|
    ensures Follow(r, ledger, q, script) == Walk(RangeOf(r, ledger, q), None)
  {
    PagingIsComplete(r, ledger, q, script);
    if RangeOf(r, ledger, q) != [] {
      forall i | 0 <= i < |script|
        ensures ReplyShows(r, ledger, q, script, i)
      {
        RoomyReplyShows(w, r, ledger, q, script, i);
      }
      if Follow(r, ledger, q, script).rest.Some? {
        ShowsAsManyAsReplies(r, ledger, q, script);
        SomethingIsLeft(r, ledger, q, script);
      }
    } else if Follow(r, ledger, q, script).rest.Some? {
      SomethingIsLeft(r, ledger, q, script);
    }
  }

  // --- Replies without room ------------------------------------------------------------------------

  /** A truncated reply without room shows nothing, and its cursor comes back to the same place. */
  lemma TightReplyStalls(
      w: Writer, r: Reader, ledger: seq<Entry>, q: Request, start: Option<int>, end: Option<int>, choice: Choice,
      p: nat)
    requires Stored(r, ledger) && Resumes(r, ledger, q, start, end, p) && p < |Ranged(ledger, start, end)|
    requires LinesSaySomething(w) && Reads(r, ledger, q)
    requires var page := Read(r, ledger, q);
      && Shows(w, page, q, choice.shown) && Room(w, page, q) < 3
      && (page.next.Some? || choice.shown < |page.entries|)
    ensures var range, page := Ranged(ledger, start, end), Read(r, ledger, q);
      var next := CursorTo(page, q, 0, range[p], AtLeastOne(choice.limit));
      Answer(r, ledger, q, choice) == Walk([], Some(next)) && Resumes(r, ledger, next, start, end, p)
  {
    var range, page := Ranged(ledger, start, end), Read(r, ledger, q);
    PageFromPosition(r, ledger, q, start, end, p);
    ShowsWithRoom(w, page, q, choice.shown);
    AnswerAt(r, ledger, q, range, page, choice, p);
    assert range[p..p] == [];
    CursorResumes(r, ledger, q, start, end, page, p, 0, AtLeastOne(choice.limit));
  }

  /** Every cursor repeats the end bound. */
  ghost predicate EchoesTo(w: Writer) {
    forall q: Request :: q.to.Some? ==> |w.cursor(q)| >= |q.to.value|
  }

  /** An end bound as long as a whole reply leaves no room. */
  lemma HugeBoundLeavesNoRoom(w: Writer, page: Reply, q: Request)
    requires page.Page? && page.entries != [] && EchoesTo(w)
    requires q.to.Some? && |q.to.value| >= Pack.REPLY_UNITS
    ensures Room(w, page, q) < 3
  {
    var pack, cursor := Packed(w, page, q), CursorTo(page, q, 0, page.entries[0], 1);
    assert Omitted(page, 0) == Some(page.entries[0]) && cursor.to == q.to;
    assert pack.more(Some(0)) == w.cursor(cursor);
    assert Pack.Longest(pack, |page.entries|) >= |pack.more(Some(0))|;
  }

  /** A read by time from the beginning of a range that is longer than its limit, with a huge end bound. */
  ghost predicate Hopeless(r: Reader, ledger: seq<Entry>, q: Request, start: Option<int>, end: Option<int>) {
    && Resumes(r, ledger, q, start, end, 0) && q.around.None? && q.limit < |Ranged(ledger, start, end)|
    && q.to.Some? && |q.to.value| >= Pack.REPLY_UNITS
  }

  lemma HopelessStays(
      w: Writer, r: Reader, ledger: seq<Entry>, q: Request, start: Option<int>, end: Option<int>, choice: Choice)
    requires Stored(r, ledger) && LinesSaySomething(w) && EchoesTo(w) && Hopeless(r, ledger, q, start, end)
    requires AtLeastOne(choice.limit) < |Ranged(ledger, start, end)| && PackedAt(w, r, ledger, Some(q), choice)
    ensures var answer := Answer(r, ledger, q, choice);
      answer.shown == [] && answer.rest.Some? && Hopeless(r, ledger, answer.rest.value, start, end)
  {
    var range, page := Ranged(ledger, start, end), Read(r, ledger, q);
    PageFromPosition(r, ledger, q, start, end, 0);
    HugeBoundLeavesNoRoom(w, page, q);
    TightReplyStalls(w, r, ledger, q, start, end, choice, 0);
    PlaceOf(r, ledger, start, end, 0);
  }

  /** With an end bound as long as a reply, a range longer than the limits is never begun. */
  lemma {:induction false} HugeBoundNeverAdvances(
      w: Writer, r: Reader, ledger: seq<Entry>, q: Request, script: seq<Choice>)
    requires Stored(r, ledger) && RangeRequest(r, q) && LinesSaySomething(w) && EchoesTo(w)
    requires q.to.Some? && |q.to.value| >= Pack.REPLY_UNITS && q.limit < |RangeOf(r, ledger, q)|
    requires forall i :: 0 <= i < |script| ==> AtLeastOne(script[i].limit) < |RangeOf(r, ledger, q)|
    requires PackedWalk(w, r, ledger, q, script)
    ensures var walk := Follow(r, ledger, q, script);
      && walk.shown == [] && walk.rest.Some?
      && Hopeless(r, ledger, walk.rest.value, Bound(r.earliest, q.from_), Bound(r.latest, q.to))
  {
    var start, end := Bound(r.earliest, q.from_), Bound(r.latest, q.to);
    if script == [] {
      StartResumes(r, ledger, q);
    } else {
      var before, last := script[..|script| - 1], Last(script);
      PackedBefore(w, r, ledger, q, script);
      HugeBoundNeverAdvances(w, r, ledger, q, before);
      var next := Follow(r, ledger, q, before).rest;
      HopelessStays(w, r, ledger, next.value, start, end, last);
      assert script == before + [last];
      FollowConcat(r, ledger, q, before, [last]);
      FollowOne(r, ledger, next.value, last);
    }
  }

  lemma PackedBefore(w: Writer, r: Reader, ledger: seq<Entry>, q: Request, script: seq<Choice>)
    requires q.limit > 0 && script != [] && PackedWalk(w, r, ledger, q, script)
    ensures var before := script[..|script| - 1];
      PackedWalk(w, r, ledger, q, before) && PackedAt(w, r, ledger, Follow(r, ledger, q, before).rest, Last(script))
  {
    var before := script[..|script| - 1];
    forall i | 0 <= i < |before|
      ensures PackedAt(w, r, ledger, RequestAt(r, ledger, q, before, i), before[i])
    {
      assert before[..i] == script[..i] && PackedAt(w, r, ledger, RequestAt(r, ledger, q, script, i), script[i]);
    }
    assert PackedAt(w, r, ledger, RequestAt(r, ledger, q, script, |before|), script[|before|]);
  }

  /** A time of day two of the epoch, with zeros behind its second. */
  function PaddedBound(zeros: nat): (text: string)
    ensures |text| > zeros + 10
  {
    StampWith(86400000, Zeros(zeros))
  }

  lemma PaddedBoundIsRead(local: int -> Option<int>, zeros: nat) returns (t: int)
    requires zeros > 0
    ensures TimeReader(local).latest(PaddedBound(zeros)) == Some(t) && t >= 1000000
  {
    t := 86400000000 + Micros(Zeros(zeros));
    FractionsAreUnbounded(86400000, Zeros(zeros), t, local);
  }

  /** A ledger whose times can all be read does not leak. */
  lemma OrderlyIsTight(r: Reader, ledger: seq<Entry>, start: Option<int>, end: Option<int>)
    requires Orderly(r, ledger)
    ensures Stored(r, ledger) && !Leaky(ledger, start, end)
  {
  }

  /** Two messages of different times, no later than a given one. */
  predicate TwoMessages(ledger: seq<Entry>, first: int, second: int) {
    |ledger| == 2 && first < second && ledger[0].id != ledger[1].id
    && Numeric(ledger[0], first) && Numeric(ledger[1], second)
  }

  lemma PairIsOrderly(r: Reader, ledger: seq<Entry>, t: int)
    requires |ledger| == 2 && Readable(r, ledger[0]) && Readable(r, ledger[1]) && ledger[0].id != ledger[1].id
    requires ledger[0].chronologicalAt < ledger[1].chronologicalAt <= t
    ensures Orderly(r, ledger) && Ranged(ledger, None, Some(t)) == ledger
  {
    KeptAll((e: Entry) => InRangeOf(e, None, Some(t)), ledger);
  }

  lemma TwoMessagesInRange(local: int -> Option<int>, ledger: seq<Entry>, first: int, second: int, t: int)
    requires TwoMessages(ledger, first, second) && t >= second * 1000
    ensures Orderly(TimeReader(local), ledger) && Ranged(ledger, None, Some(t)) == ledger
  {
    NumericIsReadable(ledger[0], first, local);
    NumericIsReadable(ledger[1], second, local);
    PairIsOrderly(TimeReader(local), ledger, t);
  }

  /**
   The failing request: two messages, one per reply, up to a time with 12000 zeros or more behind its
   second. However often the cursor is followed, nothing is ever shown.
   */
  lemma PaddedRequestFails(
      w: Writer, local: int -> Option<int>, ledger: seq<Entry>, q: Request, zeros: nat, script: seq<Choice>)
    requires LinesSaySomething(w) && EchoesTo(w) && zeros >= Pack.REPLY_UNITS && TwoMessages(ledger, 0, 1000)
    requires q == Request(None, None, Some(PaddedBound(zeros)), 1)
    requires forall i :: 0 <= i < |script| ==> script[i].limit <= 1
    requires PackedWalk(w, TimeReader(local), ledger, q, script)
    ensures var r := TimeReader(local);
      && RangeRequest(r, q) && Stored(r, ledger) && !LeakyFor(r, ledger, q) && RangeOf(r, ledger, q) == ledger
      && Follow(r, ledger, q, script).shown == [] && Follow(r, ledger, q, script).rest.Some?
  {
    var t := PaddedBoundIsRead(local, zeros);
    TwoMessagesInRange(local, ledger, 0, 1000, t);
    OrderlyIsTight(TimeReader(local), ledger, None, Some(t));
    HugeBoundNeverAdvances(w, TimeReader(local), ledger, q, script);
  }
}
