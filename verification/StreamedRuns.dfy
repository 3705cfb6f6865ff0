/**
 Streams and tables together: every run ever started with its stream, and the tables that list
 some of them. Which runs that leave the tables leave a stream without an end?
 */
module StreamedRuns {
  import opened Common
  import opened ReplyStream
  import opened StreamOverlap
  import opened RunTables

  datatype Reply = Reply(chatId: string, id: string, run: Run)

  /** The runs in the order they were started, the tables by message id and by chat. */
  datatype World = World(replies: seq<Reply>, byId: map<string, nat>, chats: map<string, string>)

  datatype Happening =
    | Starts(chatId: string, id: string)
    | On(n: nat, event: Event)
    | Dissolves(chatId: string)

  const NOTHING := World([], map[], map[])

  predicate Lists(byId: map<string, nat>, reply: Reply, n: nat) {
    reply.id in byId && byId[reply.id] == n
  }

  /** Each run notes whether the table still lists it. */
  function Noted(replies: seq<Reply>, byId: map<string, nat>): (r: seq<Reply>)
    ensures |r| == |replies|
  {
    seq(|replies|, n requires 0 <= n < |replies| =>
      replies[n].(run := replies[n].run.(listed := Lists(byId, replies[n], n))))
  }

  /** A repeated delivery may start a run under an earlier id, of its own chat only. */
  predicate MayStart(w: World, chat: string, id: string) {
    forall n :: 0 <= n < |w.replies| && w.replies[n].id == id ==> w.replies[n].chatId == chat
  }

  /** Whether an event takes its run out of the tables. */
  predicate Retires(run: Run, e: Event) {
    (e == Begins(Retire) && !run.open) || (e == Resumes(Retiring) && Retiring in run.waiting)
  }

  /** The listed run of the chat that was started last among the first n. */
  function LatestOf(replies: seq<Reply>, byId: map<string, nat>, chat: string, n: nat): Option<string>
    requires n <= |replies|
  {
    if n == 0 then None
    else if replies[n - 1].chatId == chat && Lists(byId, replies[n - 1], n - 1) then Some(replies[n - 1].id)
    else LatestOf(replies, byId, chat, n - 1)
  }

  function Discarded(w: World, chat: string, id: string): World {
    var byId := w.byId - {id};
    var chats :=
      if chat !in w.chats || w.chats[chat] != id then w.chats
      else match LatestOf(w.replies, byId, chat, |w.replies|)
        case None => w.chats - {chat}
        case Some(latest) => w.chats[chat := latest];
    World(Noted(w.replies, byId), byId, chats)
  }

  function Next(w: World, h: Happening): World {
    match h
    case Starts(chat, id) =>
      if !MayStart(w, chat, id) then w
      else
        var byId := w.byId[id := |w.replies|];
        World(Noted(w.replies + [Reply(chat, id, FRESH)], byId), byId, w.chats[chat := id])
    case On(n, e) =>
      if n >= |w.replies| then w
      else
        var reply := w.replies[n];
        var after := w.(replies := w.replies[n := reply.(run := Step(reply.run, e))]);
        if Retires(reply.run, e) then Discarded(after, reply.chatId, reply.id) else after
    case Dissolves(chat) =>
      var byId :=
        map id | id in w.byId && w.byId[id] < |w.replies| && w.replies[w.byId[id]].chatId != chat :: w.byId[id];
      World(Noted(w.replies, byId), byId, w.chats - {chat})
  }

  function Course(happenings: seq<Happening>): World {
    if happenings == [] then NOTHING
    else Next(Course(happenings[..|happenings| - 1]), Last(happenings))
  }

  // --- The tables fit ---------------------------------------------------------------------------

  /** The listed runs as the table of runs has them. */
  function Infos(w: World): Runs
    requires forall id :: id in w.byId ==> w.byId[id] < |w.replies|
  {
    map id | id in w.byId :: RunInfo(w.replies[w.byId[id]].chatId, w.byId[id] + 1)
  }

  predicate Entries(replies: seq<Reply>, byId: map<string, nat>) {
    forall id :: id in byId ==> byId[id] < |replies| && replies[byId[id]].id == id
  }

  predicate IdsKeepChats(replies: seq<Reply>) {
    forall m, n :: 0 <= m < n < |replies| && replies[m].id == replies[n].id ==> replies[m].chatId == replies[n].chatId
  }

  predicate NotesAgree(replies: seq<Reply>, byId: map<string, nat>) {
    forall n :: 0 <= n < |replies| ==> replies[n].run.listed == Lists(byId, replies[n], n)
  }

  ghost predicate Fitting(w: World) {
    Entries(w.replies, w.byId) && IdsKeepChats(w.replies) && NotesAgree(w.replies, w.byId)
  }

  lemma NotedFits(replies: seq<Reply>, byId: map<string, nat>, chats: map<string, string>)
    requires Entries(replies, byId) && IdsKeepChats(replies)
    ensures Fitting(World(Noted(replies, byId), byId, chats))
    ensures Infos(World(Noted(replies, byId), byId, chats)) == Infos(World(replies, byId, chats))
  {
    var noted := Noted(replies, byId);
    forall m, n | 0 <= m < n < |noted| && noted[m].id == noted[n].id
      ensures noted[m].chatId == noted[n].chatId
    {
      assert noted[m].id == replies[m].id && noted[n].id == replies[n].id;
    }
  }

  /** Streams and tables agree, and the tables are in order. */
  ghost predicate WorldOk(w: World) {
    Fitting(w) && TablesOk(Infos(w), w.chats, |w.replies|)
  }

  lemma {:induction false} LatestIsNewest(w: World, byId: map<string, nat>, chat: string, n: nat)
    requires n <= |w.replies|
    ensures match LatestOf(w.replies, byId, chat, n)
      case None => forall k :: 0 <= k < n && w.replies[k].chatId == chat ==> !Lists(byId, w.replies[k], k)
      case Some(id) =>
        && id in byId && byId[id] < n && w.replies[byId[id]].chatId == chat && w.replies[byId[id]].id == id
        && forall k :: byId[id] < k < n && w.replies[k].chatId == chat ==> !Lists(byId, w.replies[k], k)
  {
    if n > 0 {
      LatestIsNewest(w, byId, chat, n - 1);
    }
  }

  lemma StartedKeepsChats(replies: seq<Reply>, reply: Reply)
    requires IdsKeepChats(replies)
    requires forall n :: 0 <= n < |replies| && replies[n].id == reply.id ==> replies[n].chatId == reply.chatId
    ensures IdsKeepChats(replies + [reply])
  {
    var all := replies + [reply];
    forall m, n | 0 <= m < n < |all| && all[m].id == all[n].id
      ensures all[m].chatId == all[n].chatId
    {
      assert all[m] == replies[m];
    }
  }

  lemma StartedEntries(w: World, reply: Reply, after: World)
    requires Entries(w.replies, w.byId)
    requires after.replies == w.replies + [reply] && after.byId == w.byId[reply.id := |w.replies|]
    ensures Entries(after.replies, after.byId)
    ensures Infos(after) == Registered(Infos(w), reply.chatId, reply.id, |w.replies| + 1)
  {
    assert after.replies[|w.replies|] == reply;
    assert forall n :: 0 <= n < |w.replies| ==> after.replies[n] == w.replies[n];
  }

  lemma StartsFits(w: World, chat: string, id: string)
    requires WorldOk(w) && MayStart(w, chat, id)
    ensures WorldOk(Next(w, Starts(chat, id)))
    ensures Infos(Next(w, Starts(chat, id))) == Registered(Infos(w), chat, id, |w.replies| + 1)
  {
    var started := World(w.replies + [Reply(chat, id, FRESH)], w.byId[id := |w.replies|], w.chats[chat := id]);
    StartedKeepsChats(w.replies, Reply(chat, id, FRESH));
    StartedEntries(w, Reply(chat, id, FRESH), started);
    NotedFits(started.replies, started.byId, started.chats);
    RegisteredFits(Infos(w), w.chats, |w.replies|, chat, id, Infos(started));
  }

  lemma RegisteredFits(
      runs: Runs, chats: map<string, string>, counter: nat, chat: string, id: string, after: Runs)
    requires TablesOk(runs, chats, counter) && (id in runs ==> runs[id].chatId == chat)
    requires after == Registered(runs, chat, id, counter + 1)
    ensures TablesOk(after, chats[chat := id], counter + 1)
  {
    AfterRegister(runs, chats, counter, chat, id);
  }

  lemma DissolvedEntries(w: World, chat: string, after: World)
    requires Entries(w.replies, w.byId) && after.replies == w.replies
    requires after.byId == Next(w, Dissolves(chat)).byId
    ensures Entries(after.replies, after.byId) && Infos(after) == WithoutChat(Infos(w), chat)
  {
  }

  lemma DissolvesFits(w: World, chat: string)
    requires WorldOk(w)
    ensures WorldOk(Next(w, Dissolves(chat)))
    ensures Infos(Next(w, Dissolves(chat))) == WithoutChat(Infos(w), chat)
  {
    var after := Next(w, Dissolves(chat));
    DissolvedEntries(w, chat, World(w.replies, after.byId, after.chats));
    NotedFits(w.replies, after.byId, after.chats);
    WithoutChatFits(Infos(w), w.chats, |w.replies|, chat);
  }

  lemma WithoutChatFits(runs: Runs, chats: map<string, string>, counter: nat, chat: string)
    requires TablesOk(runs, chats, counter)
    ensures TablesOk(WithoutChat(runs, chat), chats - {chat}, counter)
  {
    AfterRemoval(runs, WithoutChat(runs, chat), chats, chats - {chat}, counter, chat);
  }

  lemma InfosWithout(w: World, id: string, after: World)
    requires Entries(w.replies, w.byId) && after.replies == w.replies && after.byId == w.byId - {id}
    ensures Entries(after.replies, after.byId) && Infos(after) == Infos(w) - {id}
  {
  }

  lemma DiscardedFits(w: World, n: nat)
    requires n < |w.replies| && Entries(w.replies, w.byId) && IdsKeepChats(w.replies)
    requires TablesOk(Infos(w), w.chats, |w.replies|)
    ensures var after := Discarded(w, w.replies[n].chatId, w.replies[n].id);
      WorldOk(after) && Infos(after) == Infos(w) - {w.replies[n].id}
  {
    var chat, id := w.replies[n].chatId, w.replies[n].id;
    var after := Discarded(w, chat, id);
    InfosWithout(w, id, World(w.replies, after.byId, after.chats));
    NotedFits(w.replies, after.byId, after.chats);
    DiscardedEntry(w, n, after);
    ListedInChat(w, n);
    WithoutRunFits(Infos(w), w.chats, |w.replies|, chat, id, after.chats);
  }

  lemma ListedInChat(w: World, n: nat)
    requires n < |w.replies| && Entries(w.replies, w.byId) && IdsKeepChats(w.replies)
    ensures w.replies[n].id in Infos(w) ==> Infos(w)[w.replies[n].id].chatId == w.replies[n].chatId
  {
    var id := w.replies[n].id;
    if id in w.byId && w.byId[id] != n {
      var m := w.byId[id];
      assert w.replies[m].id == id;
    }
  }

  lemma WithoutRunFits(
      runs: Runs, chats: map<string, string>, counter: nat, chat: string, id: string, chatsAfter: map<string, string>)
    requires TablesOk(runs, chats, counter) && (id in runs ==> runs[id].chatId == chat)
    requires EntryOk(runs - {id}, chatsAfter, chat) && chatsAfter - {chat} == chats - {chat}
    ensures TablesOk(runs - {id}, chatsAfter, counter)
  {
    forall c | c != chat
      ensures (c in chats <==> c in chatsAfter) && (c in chats ==> chats[c] == chatsAfter[c])
    {
      assert c in chats - {chat} <==> c in chatsAfter - {chat};
      assert c in chats ==> (chats - {chat})[c] == chats[c];
    }
    AfterRemoval(runs, runs - {id}, chats, chatsAfter, counter, chat);
  }

  lemma DiscardedEntry(w: World, n: nat, after: World)
    requires n < |w.replies| && Entries(w.replies, w.byId)
    requires TablesOk(Infos(w), w.chats, |w.replies|)
    requires after == Discarded(w, w.replies[n].chatId, w.replies[n].id)
    ensures EntryOk(Infos(w) - {w.replies[n].id}, after.chats, w.replies[n].chatId)
  {
    var chat, id := w.replies[n].chatId, w.replies[n].id;
    assert EntryOk(Infos(w), w.chats, chat);
    if chat in w.chats && w.chats[chat] == id {
      LatestIsNewest(w, after.byId, chat, |w.replies|);
    } else {
      EntryStays(Infos(w), Infos(w) - {id}, w.chats, chat);
    }
  }

  /** Only a retirement takes a run out of the tables by itself. */
  lemma StepListed(run: Run, e: Event)
    ensures Step(run, e).listed == (run.listed && !Retires(run, e))
  {
    match e
    case Begins(op) =>
    case Resumes(suspended) => assert suspended !in run.waiting ==> Step(run, e) == run;
  }

  lemma ReplacedFits(w: World, n: nat, run: Run, after: World)
    requires n < |w.replies| && Entries(w.replies, w.byId) && IdsKeepChats(w.replies)
    requires after == w.(replies := w.replies[n := w.replies[n].(run := run)])
    ensures Entries(after.replies, after.byId) && IdsKeepChats(after.replies) && Infos(after) == Infos(w)
  {
    assert forall k :: 0 <= k < |w.replies| ==>
      after.replies[k].id == w.replies[k].id && after.replies[k].chatId == w.replies[k].chatId;
    forall i, j | 0 <= i < j < |after.replies| && after.replies[i].id == after.replies[j].id
      ensures after.replies[i].chatId == after.replies[j].chatId
    {
      assert w.replies[i].id == w.replies[j].id;
    }
  }

  lemma OnFits(w: World, n: nat, e: Event)
    requires WorldOk(w) && n < |w.replies|
    ensures WorldOk(Next(w, On(n, e)))
    ensures Infos(Next(w, On(n, e)))
         == if Retires(w.replies[n].run, e) then Infos(w) - {w.replies[n].id} else Infos(w)
  {
    var run := w.replies[n].run;
    var after := w.(replies := w.replies[n := w.replies[n].(run := Step(run, e))]);
    StepListed(run, e);
    ReplacedFits(w, n, Step(run, e), after);
    if Retires(run, e) {
      DiscardedFits(after, n);
    } else {
      assert NotesAgree(after.replies, after.byId);
    }
  }

  /** In every course of events the tables are in order and list exactly the runs that say so. */
  lemma {:induction false} CourseOk(happenings: seq<Happening>)
    ensures WorldOk(Course(happenings))
  {
    if happenings != [] {
      var w := Course(happenings[..|happenings| - 1]);
      CourseOk(happenings[..|happenings| - 1]);
      match Last(happenings)
      case Starts(chat, id) =>
        if MayStart(w, chat, id) {
          StartsFits(w, chat, id);
        }
      case On(n, e) =>
        if n < |w.replies| {
          OnFits(w, n, e);
        }
      case Dissolves(chat) => DissolvesFits(w, chat);
    }
  }

  // --- One run among the others --------------------------------------------------------------------

  /** What one event means for a run but for its place in the tables. */
  function RunAfter(run: Run, n: nat, h: Happening): Run {
    if h.On? && h.n == n then Step(run, h.event) else run
  }

  lemma NextRun(w: World, h: Happening, n: nat)
    requires n < |w.replies|
    ensures n < |Next(w, h).replies|
    ensures Next(w, h).replies[n].id == w.replies[n].id && Next(w, h).replies[n].chatId == w.replies[n].chatId
    ensures OnlyListedDiffers(RunAfter(w.replies[n].run, n, h), Next(w, h).replies[n].run)
  {
    match h
    case Starts(chat, id) =>
    case On(k, e) =>
      if k < |w.replies| {
        NextOn(w, k, e, n);
      }
    case Dissolves(chat) =>
  }

  lemma NextOn(w: World, k: nat, e: Event, n: nat)
    requires n < |w.replies| && k < |w.replies|
    ensures n < |Next(w, On(k, e)).replies|
    ensures var reply := Next(w, On(k, e)).replies[n];
      && reply.id == w.replies[n].id && reply.chatId == w.replies[n].chatId
      && OnlyListedDiffers(RunAfter(w.replies[n].run, n, On(k, e)), reply.run)
  {
    var after := w.replies[k := w.replies[k].(run := Step(w.replies[k].run, e))];
    assert after[n] == w.replies[n].(run := RunAfter(w.replies[n].run, n, On(k, e)));
  }

  /** Whether a run retires by this event while it is listed. */
  predicate OwnRetirement(run: Run, n: nat, h: Happening) {
    h.On? && h.n == n && Retires(run, h.event)
  }

  /** Whether a retiring run of the same id takes the entry of this one with it. */
  predicate NamesakeRetires(w: World, n: nat, h: Happening)
    requires n < |w.replies|
  {
    && h.On? && h.n < |w.replies| && h.n != n
    && w.replies[h.n].id == w.replies[n].id && Retires(w.replies[h.n].run, h.event)
  }

  /** What makes a listed run leave the tables although it has not retired. */
  predicate Dropped(w: World, n: nat, h: Happening)
    requires n < |w.replies|
  {
    || h == Dissolves(w.replies[n].chatId)
    || h == Starts(w.replies[n].chatId, w.replies[n].id)
    || NamesakeRetires(w, n, h)
  }

  predicate Leaves(w: World, n: nat, h: Happening)
    requires n < |w.replies| && n < |Next(w, h).replies|
  {
    w.replies[n].run.listed && !Next(w, h).replies[n].run.listed
  }

  lemma NoteOfStart(w: World, n: nat, chat: string, id: string)
    requires WorldOk(w) && n < |w.replies| && MayStart(w, chat, id)
    ensures Next(w, Starts(chat, id)).replies[n].run.listed == (w.replies[n].run.listed && id != w.replies[n].id)
  {
  }

  lemma NoteOfEnd(w: World, n: nat, chat: string)
    requires WorldOk(w) && n < |w.replies|
    ensures Next(w, Dissolves(chat)).replies[n].run.listed == (w.replies[n].run.listed && chat != w.replies[n].chatId)
  {
  }

  lemma NoteOfOther(w: World, n: nat, k: nat, e: Event)
    requires WorldOk(w) && n < |w.replies| && k < |w.replies|
    ensures Next(w, On(k, e)).replies[n].run.listed
         == (w.replies[n].run.listed && !(Retires(w.replies[k].run, e) && w.replies[k].id == w.replies[n].id))
  {
    StepListed(w.replies[k].run, e);
  }

  /** A listed run leaves the tables exactly by retiring or by being dropped. */
  lemma LeavesExactlyWhen(w: World, n: nat, h: Happening)
    requires WorldOk(w) && n < |w.replies| && w.replies[n].run.listed
    ensures n < |Next(w, h).replies|
    ensures Leaves(w, n, h) <==> OwnRetirement(w.replies[n].run, n, h) || Dropped(w, n, h)
  {
    match h
    case Starts(chat, id) =>
      if MayStart(w, chat, id) {
        NoteOfStart(w, n, chat, id);
      } else {
        StartOfListed(w, n);
      }
    case On(k, e) =>
      if k < |w.replies| {
        NoteOfOther(w, n, k, e);
      }
    case Dissolves(chat) => NoteOfEnd(w, n, chat);
  }

  lemma StartOfListed(w: World, n: nat)
    requires WorldOk(w) && n < |w.replies|
    ensures MayStart(w, w.replies[n].chatId, w.replies[n].id)
  {
    forall k | 0 <= k < |w.replies| && w.replies[k].id == w.replies[n].id
      ensures w.replies[k].chatId == w.replies[n].chatId
    {
      assert k != n ==> IdsKeepChats(w.replies);
    }
  }

  /** A run that left the tables never comes back. */
  lemma GoneForGood(w: World, n: nat, h: Happening)
    requires WorldOk(w) && n < |w.replies| && !w.replies[n].run.listed
    ensures n < |Next(w, h).replies| && !Next(w, h).replies[n].run.listed
  {
    match h
    case Starts(chat, id) =>
      if MayStart(w, chat, id) {
        NoteOfStart(w, n, chat, id);
      }
    case On(k, e) =>
      if k < |w.replies| {
        NoteOfOther(w, n, k, e);
      }
    case Dissolves(chat) => NoteOfEnd(w, n, chat);
  }

  // --- Which streams are left without an end -----------------------------------------------------------

  /** Operations on run n that begin from some event on. */
  predicate NothingBegins(happenings: seq<Happening>, n: nat, from: nat) {
    forall i :: from <= i < |happenings| ==> !(happenings[i].On? && happenings[i].n == n && happenings[i].event.Begins?)
  }

  /** Every operation on run n begins under the guard. */
  ghost predicate GuardedRun(happenings: seq<Happening>, n: nat) {
    forall i :: 0 <= i < |happenings| ==> GuardedNext(Course(happenings[..i]), n, happenings[i])
  }

  ghost predicate GuardedNext(w: World, n: nat, h: Happening) {
    h.On? && h.n == n && h.event.Begins? && n < |w.replies| ==> MayBegin(w.replies[n].run, h.event.op)
  }

  /** A stream was begun and its last frame is no end. */
  predicate Unfinished(frames: seq<Frame>) {
    frames != [] && !Last(frames).Done? && !Last(frames).Failed?
  }

  /** Nothing suspended will end the stream that is open or about to open. */
  ghost predicate StaysOpen(run: Run) {
    CreatingAny(run) || (run.open && !Ending(run))
  }

  lemma StartedIsFresh(w: World, n: nat, h: Happening)
    requires n == |w.replies| < |Next(w, h).replies|
    ensures OnlyListedDiffers(FRESH, Next(w, h).replies[n].run) && |Next(w, h).replies| == n + 1
  {
  }

  lemma FreshIsInv()
    ensures Inv(FRESH)
  {
    assert AddCount([]) == 0;
  }

  lemma {:induction false} RunKeepsInv(happenings: seq<Happening>, n: nat)
    requires GuardedRun(happenings, n) && n < |Course(happenings).replies|
    ensures Inv(Course(happenings).replies[n].run)
  {
    var before, h := happenings[..|happenings| - 1], Last(happenings);
    var w := Course(before);
    assert GuardedNext(w, n, h) && GuardedRun(before, n) by { GuardedRunBefore(happenings, n); }
    if n < |w.replies| {
      RunKeepsInv(before, n);
      NextRun(w, h, n);
      RunAfterKeepsInv(w.replies[n].run, n, h);
      ListedIsFree(RunAfter(w.replies[n].run, n, h), Course(happenings).replies[n].run);
    } else {
      OneMore(w, h);
      StartedIsFresh(w, n, h);
      FreshIsInv();
      ListedIsFree(FRESH, Course(happenings).replies[n].run);
    }
  }

  lemma OneMore(w: World, h: Happening)
    ensures |w.replies| <= |Next(w, h).replies| <= |w.replies| + 1
  {
  }

  lemma RunAfterKeepsInv(run: Run, n: nat, h: Happening)
    requires Inv(run) && (h.On? && h.n == n && h.event.Begins? ==> MayBegin(run, h.event.op))
    ensures Inv(RunAfter(run, n, h))
  {
    if h.On? && h.n == n {
      match h.event
      case Begins(op) => BeginKeepsInv(run, op);
      case Resumes(suspended) => ResumeKeepsInv(run, suspended);
    }
  }

  lemma GuardedRunBefore(happenings: seq<Happening>, n: nat)
    requires GuardedRun(happenings, n) && happenings != []
    ensures GuardedRun(happenings[..|happenings| - 1], n)
    ensures GuardedNext(Course(happenings[..|happenings| - 1]), n, Last(happenings))
  {
    var before := happenings[..|happenings| - 1];
    forall i | 0 <= i < |before|
      ensures GuardedNext(Course(before[..i]), n, before[i])
    {
      assert before[..i] == happenings[..i];
    }
  }

  lemma CreatedKeepsFate(run: Run, text: string)
    requires Inv(run) && Creating(text) in run.waiting
    ensures StaysOpen(Resume(run, Creating(text))) && StaysOpen(run)
  {
    var after := Resume(run, Creating(text));
    assert OpeningOk(run, text) && !Ending(run);
    assert forall w :: w in after.waiting ==> w in run.waiting || w == Adding(text);
  }

  lemma AddedKeepsFate(run: Run, text: string)
    requires Adding(text) in run.waiting
    ensures StaysOpen(Resume(run, Adding(text))) == StaysOpen(run)
  {
    var after := Resume(run, Adding(text));
    assert forall w :: w != Adding(text) ==> after.waiting[w] == run.waiting[w];
    assert CreatingAny(after) == CreatingAny(run) by {
      assert forall t :: Creating(t) in after.waiting <==> Creating(t) in run.waiting;
    }
  }

  lemma EndedKeepsFate(run: Run, suspended: Suspended)
    requires Inv(run) && suspended in run.waiting && !suspended.Creating? && !suspended.Adding?
    ensures !StaysOpen(Resume(run, suspended)) && !StaysOpen(run)
  {
    var after := Resume(run, suspended);
    assert Ending(run) && !CreatingAny(run) && !after.open;
    assert forall w :: w in after.waiting ==> w in run.waiting;
  }

  /** Going on never changes whether a stream is going to end. */
  lemma ResumeKeepsFate(run: Run, suspended: Suspended)
    requires Inv(run)
    ensures StaysOpen(Resume(run, suspended)) == StaysOpen(run)
  {
    if suspended in run.waiting {
      match suspended
      case Creating(text) => CreatedKeepsFate(run, text);
      case Adding(text) => AddedKeepsFate(run, text);
      case Finishing => EndedKeepsFate(run, suspended);
      case Failing => EndedKeepsFate(run, suspended);
      case Retiring => EndedKeepsFate(run, suspended);
    }
  }

  lemma FateIsDecided(run: Run)
    requires Inv(run) && run.waiting == multiset{}
    ensures StaysOpen(run) <==> Unfinished(run.sent)
  {
  }

  lemma RetirementCloses(run: Run, e: Event)
    requires Inv(run) && Retires(run, e) && (e.Begins? ==> MayBegin(run, e.op))
    ensures !StaysOpen(Step(run, e))
  {
    if e.Resumes? {
      ResumeKeepsFate(run, e.suspended);
    }
  }

  lemma ListingKeepsFate(a: Run, b: Run)
    requires OnlyListedDiffers(a, b)
    ensures StaysOpen(a) == StaysOpen(b)
  {
  }

  /** Run n leaves the tables by event i. */
  predicate LeavesAt(happenings: seq<Happening>, n: nat, i: nat)
    requires i < |happenings|
  {
    var w := Course(happenings[..i]);
    n < |w.replies| && n < |Next(w, happenings[i]).replies| && Leaves(w, n, happenings[i])
  }

  /** The fate of a run that has left, while nothing more begins on it. */
  lemma {:induction false} FateAfterLeaving(happenings: seq<Happening>, n: nat, i: nat)
    requires GuardedRun(happenings, n) && i < |happenings| && LeavesAt(happenings, n, i)
    requires NothingBegins(happenings, n, i + 1)
    ensures n < |Course(happenings).replies|
    ensures StaysOpen(Course(happenings).replies[n].run) <==>
      var run := Course(happenings[..i]).replies[n].run; !OwnRetirement(run, n, happenings[i]) && StaysOpen(run)
  {
    var before, h := happenings[..|happenings| - 1], Last(happenings);
    var w := Course(before);
    GuardedRunBefore(happenings, n);
    if i < |before| {
      assert before[..i] == happenings[..i];
      FateAfterLeaving(before, n, i);
      RunKeepsInv(before, n);
      LaterFate(w, n, h);
    } else {
      assert before == happenings[..i];
      RunKeepsInv(before, n);
      CourseOk(before);
      FateOnLeaving(w, n, h);
    }
  }

  lemma LaterFate(w: World, n: nat, h: Happening)
    requires n < |w.replies| && Inv(w.replies[n].run) && !(h.On? && h.n == n && h.event.Begins?)
    ensures n < |Next(w, h).replies| && StaysOpen(Next(w, h).replies[n].run) == StaysOpen(w.replies[n].run)
  {
    var run := w.replies[n].run;
    NextRun(w, h, n);
    ListingKeepsFate(RunAfter(run, n, h), Next(w, h).replies[n].run);
    if h.On? && h.n == n {
      ResumeKeepsFate(run, h.event.suspended);
    }
  }

  lemma FateOnLeaving(w: World, n: nat, h: Happening)
    requires WorldOk(w) && n < |w.replies| <= |Next(w, h).replies| && Leaves(w, n, h)
    requires Inv(w.replies[n].run) && GuardedNext(w, n, h)
    ensures StaysOpen(Next(w, h).replies[n].run) <==>
      !OwnRetirement(w.replies[n].run, n, h) && StaysOpen(w.replies[n].run)
  {
    var run := w.replies[n].run;
    LeavesExactlyWhen(w, n, h);
    NextRun(w, h, n);
    ListingKeepsFate(RunAfter(run, n, h), Next(w, h).replies[n].run);
    if OwnRetirement(run, n, h) {
      RetirementCloses(run, h.event);
    }
  }

  /**
   Over all interleavings of all runs: a run that left the tables, and on which nothing begins
   after that, is left with a stream without an end exactly when it did not retire but was dropped
   with its chat or by a namesake while its stream was open, or about to open, and no end under
   way.
   */
  lemma LostExactlyWhen(happenings: seq<Happening>, n: nat, i: nat)
    requires GuardedRun(happenings, n) && i < |happenings| && LeavesAt(happenings, n, i)
    requires NothingBegins(happenings, n, i + 1)
    ensures n < |Course(happenings).replies|
    ensures var w, final := Course(happenings[..i]), Course(happenings).replies[n].run;
      final.waiting == multiset{} ==>
        (Unfinished(final.sent) <==> Dropped(w, n, happenings[i]) && StaysOpen(w.replies[n].run))
  {
    FateAfterLeaving(happenings, n, i);
    RunKeepsInv(happenings, n);
    CourseOk(happenings[..i]);
    var w, final := Course(happenings[..i]), Course(happenings).replies[n].run;
    LeavesExactlyWhen(w, n, happenings[i]);
    if final.waiting == multiset{} {
      FateIsDecided(final);
    }
  }

  lemma RetiredOut(w: World, n: nat, e: Event)
    requires WorldOk(w) && n < |w.replies| && w.replies[n].run.listed
    requires Inv(w.replies[n].run) && Retires(w.replies[n].run, e) && (e.Begins? ==> MayBegin(w.replies[n].run, e.op))
    ensures n < |Next(w, On(n, e)).replies|
    ensures var run := Next(w, On(n, e)).replies[n].run; !run.listed && !run.open && !StaysOpen(run)
  {
    NoteOfOther(w, n, n, e);
    NextRun(w, On(n, e), n);
    RetirementCloses(w.replies[n].run, e);
    ListingKeepsFate(Step(w.replies[n].run, e), Next(w, On(n, e)).replies[n].run);
  }

  /**
   Retiring covers stream and tables: when a run's retirement takes it out, its stream is closed,
   exactly its id leaves, and the tables are still in order.
   */
  lemma RetirementIsJoint(happenings: seq<Happening>, n: nat, e: Event)
    requires GuardedRun(happenings + [On(n, e)], n) && n < |Course(happenings).replies|
    requires Course(happenings).replies[n].run.listed && Retires(Course(happenings).replies[n].run, e)
    ensures var w, after := Course(happenings), Course(happenings + [On(n, e)]);
      && WorldOk(w) && WorldOk(after) && Infos(after) == Infos(w) - {w.replies[n].id}
      && n < |after.replies| && !after.replies[n].run.listed && !after.replies[n].run.open
      && !StaysOpen(after.replies[n].run)
  {
    CourseSnoc(happenings, On(n, e));
    assert (happenings + [On(n, e)])[..|happenings|] == happenings;
    GuardedRunBefore(happenings + [On(n, e)], n);
    RunKeepsInv(happenings, n);
    CourseOk(happenings);
    OnFits(Course(happenings), n, e);
    RetiredOut(Course(happenings), n, e);
  }

  lemma CourseSnoc(happenings: seq<Happening>, h: Happening)
    ensures Course(happenings + [h]) == Next(Course(happenings), h)
  {
    var all := happenings + [h];
    assert all[..|all| - 1] == happenings && Last(all) == h;
  }

  /** A chat dissolved while the reply's created frame is going out: its stream is never ended. */
  lemma DissolvedWhileOpening() returns (happenings: seq<Happening>)
    ensures var replies := Course(happenings).replies;
      && |replies| == 1 && replies[0].run == Run(true, "a", 0, false, false, [Created, Add(0, "a", "a")], multiset{})
    ensures Course(happenings).byId == map[]
  {
    happenings := [Starts("c", "m")];
    CourseSnoc([], happenings[0]);
    assert [] + happenings == happenings;
    assert Course(happenings).replies == [Reply("c", "m", FRESH)];
    CourseSnoc(happenings, On(0, Begins(Update("a", true, false))));
    happenings := happenings + [On(0, Begins(Update("a", true, false)))];
    var opening := FRESH.(sent := [Created], waiting := multiset{Creating("a")});
    assert Step(FRESH, Begins(Update("a", true, false))) == opening by {
      assert FRESH.sent + [Created] == [Created] && FRESH.waiting + multiset{Creating("a")} == multiset{Creating("a")};
    }
    assert Course(happenings).replies == [Reply("c", "m", opening)];
    CourseSnoc(happenings, Dissolves("c"));
    happenings := happenings + [Dissolves("c")];
    var dropped := opening.(listed := false);
    assert Course(happenings).replies == [Reply("c", "m", dropped)];
    var adding := StreamGoesOn(Course(happenings), dropped);
    CourseSnoc(happenings, On(0, Resumes(Creating("a"))));
    CourseSnoc(happenings + [On(0, Resumes(Creating("a")))], On(0, Resumes(Adding("a"))));
    happenings := happenings + [On(0, Resumes(Creating("a")))] + [On(0, Resumes(Adding("a")))];
  }

  lemma StreamGoesOn(w: World, dropped: Run) returns (last: World)
    requires dropped == Run(false, "", -1, false, false, [Created], multiset{Creating("a")})
    requires w.replies == [Reply("c", "m", dropped)] && w.byId == map[]
    ensures last == Next(Next(w, On(0, Resumes(Creating("a")))), On(0, Resumes(Adding("a"))))
    ensures last.byId == map[]
    ensures |last.replies| == 1
    ensures last.replies[0].run == Run(true, "a", 0, false, false, [Created, Add(0, "a", "a")], multiset{})
  {
    var next := Next(w, On(0, Resumes(Creating("a"))));
    assert next.replies[0].run == Run(true, "", 0, false, false, [Created, Add(0, "a", "a")], multiset{Adding("a")});
    last := Next(next, On(0, Resumes(Adding("a"))));
  }
}
