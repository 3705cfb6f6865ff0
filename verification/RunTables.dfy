/**
 The adapter's tables of active runs: all runs by message id, and for each chat the id of the
 run an edit without id refers to.
 */
module RunTables {
  import opened Common

  datatype RunInfo = RunInfo(chatId: string, order: nat)

  type Runs = map<string, RunInfo>

  predicate InChat(runs: Runs, chat: string, id: string) {
    id in runs && runs[id].chatId == chat
  }

  predicate HasRun(runs: Runs, chat: string) {
    exists id :: id in runs && InChat(runs, chat, id)
  }

  predicate Newest(runs: Runs, chat: string, id: string) {
    && InChat(runs, chat, id)
    && forall other :: other in runs && InChat(runs, chat, other) ==> runs[other].order <= runs[id].order
  }

  predicate DistinctOrders(runs: Runs) {
    forall a, b :: a in runs && b in runs && runs[a].order == runs[b].order ==> a == b
  }

  /** A chat has an entry exactly while it has a run, and the entry names its newest one. */
  ghost predicate TablesOk(runs: Runs, chats: map<string, string>, counter: nat) {
    && (forall id :: id in runs ==> runs[id].order <= counter)
    && DistinctOrders(runs)
    && (forall chat :: EntryOk(runs, chats, chat))
  }

  predicate EntryOk(runs: Runs, chats: map<string, string>, chat: string) {
    if chat in chats then Newest(runs, chat, chats[chat]) else !HasRun(runs, chat)
  }

  /** A chat's newest run is unique, so the runs alone determine the table of chats. */
  lemma RunsDetermineChats(runs: Runs, chats: map<string, string>, others: map<string, string>, counter: nat)
    requires TablesOk(runs, chats, counter) && TablesOk(runs, others, counter)
    ensures chats == others
  {
    forall chat
      ensures chat in chats <==> chat in others
      ensures chat in chats ==> chats[chat] == others[chat]
    {
      assert EntryOk(runs, chats, chat) && EntryOk(runs, others, chat);
      if chat in chats {
        assert HasRun(runs, chat);
      }
      if chat in others {
        assert HasRun(runs, chat);
      }
    }
  }

  function Registered(runs: Runs, chat: string, id: string, order: nat): Runs {
    runs[id := RunInfo(chat, order)]
  }

  function WithoutChat(runs: Runs, chat: string): Runs {
    map id | id in runs && runs[id].chatId != chat :: runs[id]
  }

  lemma AfterRegister(runs: Runs, chats: map<string, string>, counter: nat, chat: string, id: string)
    requires TablesOk(runs, chats, counter)
    requires id in runs ==> runs[id].chatId == chat
    ensures TablesOk(Registered(runs, chat, id, counter + 1), chats[chat := id], counter + 1)
  {
    var after, chatsAfter := Registered(runs, chat, id, counter + 1), chats[chat := id];
    forall c
      ensures EntryOk(after, chatsAfter, c)
    {
      assert EntryOk(runs, chats, c);
      if c != chat && HasRun(after, c) {
        var i :| i in after && InChat(after, c, i);
        assert InChat(runs, c, i);
      }
    }
  }

  lemma FewerRuns(runs: Runs, after: Runs, chat: string)
    requires forall id :: id in after ==> id in runs && after[id] == runs[id]
    ensures HasRun(after, chat) ==> HasRun(runs, chat)
  {
    if HasRun(after, chat) {
      var i :| i in after && InChat(after, chat, i);
      assert InChat(runs, chat, i);
    }
  }

  /** Chats whose runs stay keep their entries. */
  lemma EntryStays(runs: Runs, after: Runs, chats: map<string, string>, chat: string)
    requires EntryOk(runs, chats, chat)
    requires forall id :: id in after ==> id in runs && after[id] == runs[id]
    requires chat in chats ==> chats[chat] in after
    ensures EntryOk(after, chats, chat)
  {
    FewerRuns(runs, after, chat);
    if chat in chats {
      assert forall other :: other in after && InChat(after, chat, other) ==> InChat(runs, chat, other);
    }
  }

  lemma AfterRemoval(
      runs: Runs, after: Runs, chats: map<string, string>, chatsAfter: map<string, string>, counter: nat, chat: string)
    requires TablesOk(runs, chats, counter) && EntryOk(after, chatsAfter, chat)
    requires forall id :: id in after ==> id in runs && after[id] == runs[id]
    requires forall id :: id in runs && runs[id].chatId != chat ==> id in after
    requires forall c :: c != chat ==> (c in chats <==> c in chatsAfter) && (c in chats ==> chats[c] == chatsAfter[c])
    ensures TablesOk(after, chatsAfter, counter)
  {
    forall c
      ensures EntryOk(after, chatsAfter, c)
    {
      assert EntryOk(runs, chats, c);
      if c != chat {
        EntryStays(runs, after, chatsAfter, c);
      }
    }
  }

  method FindLatestForChat(runs: Runs, chat: string) returns (found: Option<string>)
    ensures found == None <==> !HasRun(runs, chat)
    ensures found.Some? ==> Newest(runs, chat, found.value)
  {
    found := None;
    var left := runs.Keys;
    while left != {}
      invariant left <= runs.Keys
      invariant found == None ==> forall id :: id in runs && InChat(runs, chat, id) ==> id in left
      invariant found.Some? ==> InChat(runs, chat, found.value)
      invariant found.Some? ==>
        forall id :: id in runs && InChat(runs, chat, id) ==> id in left || runs[id].order <= runs[found.value].order
      decreases |left|
    {
      var id :| id in left;
      if runs[id].chatId == chat && (found == None || runs[found.value].order < runs[id].order) {
        found := Some(id);
      }
      left := left - {id};
    }
  }

  /** The run an edit or a completion is for. */
  function Resolve(runs: Runs, chats: map<string, string>, chat: string, id: Option<string>): Option<string> {
    if id.Some? && id.value != "" then
      if id.value !in runs || runs[id.value].chatId != chat then None else id
    else if chat in chats && chats[chat] in runs then Some(chats[chat])
    else None
  }

  /** Without an id, an edit goes to the chat's newest active run, and finds one whenever there is one. */
  lemma ResolveFindsNewest(runs: Runs, chats: map<string, string>, counter: nat, chat: string)
    requires TablesOk(runs, chats, counter)
    ensures Resolve(runs, chats, chat, None) == None <==> !HasRun(runs, chat)
    ensures Resolve(runs, chats, chat, None).Some? ==> Newest(runs, chat, Resolve(runs, chats, chat, None).value)
  {
    assert EntryOk(runs, chats, chat);
    if chat in chats {
      assert InChat(runs, chat, chats[chat]);
    }
  }

  method DropChat(runs: Runs, chat: string) returns (kept: Runs)
    ensures kept == WithoutChat(runs, chat)
  {
    var ids := set id | id in runs && runs[id].chatId == chat;
    var left := ids;
    kept := runs;
    while left != {}
      invariant left <= ids && kept == runs - (ids - left)
      decreases |left|
    {
      var id :| id in left;
      kept := kept - {id};
      left := left - {id};
    }
  }

  class ActiveRuns {
    var runsById: Runs
    var chatRuns: map<string, string>
    var counter: nat

    ghost predicate Valid()
      reads this
    {
      TablesOk(runsById, chatRuns, counter)
    }

    constructor ()
      ensures Valid() && runsById == map[] && chatRuns == map[]
    {
      runsById, chatRuns, counter := map[], map[], 0;
    }

    /** An id is reused only within its chat. */
    method Register(chat: string, id: string)
      requires Valid()
      requires id in runsById ==> runsById[id].chatId == chat
      modifies this
      ensures Valid()
      ensures counter == old(counter) + 1
      ensures runsById == Registered(old(runsById), chat, id, counter)
    {
      AfterRegister(runsById, chatRuns, counter, chat, id);
      counter := counter + 1;
      runsById := runsById[id := RunInfo(chat, counter)];
      chatRuns := chatRuns[chat := id];
    }

    method Discard(chat: string, id: string)
      requires Valid()
      requires id in runsById ==> runsById[id].chatId == chat
      modifies this
      ensures Valid()
      ensures counter == old(counter) && runsById == old(runsById) - {id}
    {
      ghost var runs, chats := runsById, chatRuns;
      runsById := runsById - {id};
      assert EntryOk(runs, chats, chat);
      if chat !in chatRuns || chatRuns[chat] != id {
        EntryStays(runs, runsById, chats, chat);
        AfterRemoval(runs, runsById, chats, chatRuns, counter, chat);
        return;
      }
      var replacement := FindLatestForChat(runsById, chat);
      if replacement == None {
        chatRuns := chatRuns - {chat};
      } else {
        chatRuns := chatRuns[chat := replacement.value];
      }
      AfterRemoval(runs, runsById, chats, chatRuns, counter, chat);
    }

    /** A dissolved chat loses its entry and all its runs. */
    method EvictChat(chat: string)
      requires Valid()
      modifies this
      ensures Valid()
      ensures counter == old(counter) && runsById == WithoutChat(old(runsById), chat)
    {
      ghost var runs, chats := runsById, chatRuns;
      chatRuns := chatRuns - {chat};
      runsById := DropChat(runsById, chat);
      AfterRemoval(runs, runsById, chats, chatRuns, counter, chat);
    }
  }
}
