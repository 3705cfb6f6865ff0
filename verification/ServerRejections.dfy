/**
 Conversations the server refused. Sends to them are gated for a while, until anything shows
 that the conversation lives; the owner's direct chat is never gated.
 */
module ServerRejections {
  import opened Common
  import opened RecencyCache

  const TTL := 600_000
  const DEAD_CHATS_MAX := 512

  predicate IsConversation(chat: string) {
    "cnv_" <= chat
  }

  /** What happens to a chat; times are in milliseconds. */
  datatype Happening =
    | Rejected(chatId: string, now: int)
    | Alive(chatId: string, now: int)
    | Asked(chatId: string, now: int)

  /** An entry's value is its deadline; it counts while the deadline lies ahead. */
  function GateEvent(h: Happening): Event<string> {
    match h
    case Rejected(chat, now) => if IsConversation(chat) then Mark(chat, now + TTL, now + 1) else Other(now + 1)
    case Alive(chat, now) => if chat == "" then Other(now + 1) else Clear(chat, now + 1)
    case Asked(chat, now) => if chat == "" then Other(now + 1) else Query(chat, now + 1)
  }

  predicate Gated(rejected: Cache<string>, chat: string, now: int, ownerChat: string) {
    chat != "" && Get(rejected, chat).Some? && now < Get(rejected, chat).value && chat != ownerChat
  }

  class RejectionGate {
    var rejected: Cache<string>

    constructor ()
      ensures rejected == []
    {
      rejected := [];
    }

    method MarkRejected(chat: string, now: int)
      modifies this
      ensures rejected == Apply(old(rejected), GateEvent(Rejected(chat, now)), DEAD_CHATS_MAX)
    {
      if !IsConversation(chat) {
        return;
      }
      rejected := Without(rejected, chat);
      rejected := rejected + [Entry(chat, now + TTL)];
      ghost var moved := rejected;
      while |rejected| > DEAD_CHATS_MAX
        invariant |rejected| <= |moved| && rejected == moved[|moved| - |rejected|..]
        invariant |moved| > DEAD_CHATS_MAX ==> |rejected| >= DEAD_CHATS_MAX
        invariant |moved| <= DEAD_CHATS_MAX ==> rejected == moved
      {
        rejected := rejected[1..];
      }
    }

    method ClearRejection(chat: string, now: int)
      modifies this
      ensures rejected == Apply(old(rejected), GateEvent(Alive(chat, now)), DEAD_CHATS_MAX)
    {
      if chat == "" {
        return;
      }
      rejected := Without(rejected, chat);
    }

    method IsRejected(chat: string, now: int, ownerChat: string) returns (gated: bool)
      modifies this
      ensures gated == Gated(old(rejected), chat, now, ownerChat)
      ensures rejected == Apply(old(rejected), GateEvent(Asked(chat, now)), DEAD_CHATS_MAX)
    {
      if chat == "" {
        return false;
      }
      var deadline := Get(rejected, chat);
      if deadline == None {
        return false;
      }
      if now >= deadline.value {
        rejected := Without(rejected, chat);
        return false;
      }
      return chat != ownerChat;
    }
  }

  // --- Compared with the full log -------------------------------------------------------------------

  predicate Chronological(log: seq<Happening>) {
    forall i, j :: 0 <= i < j < |log| ==> log[i].now <= log[j].now
  }

  function Events(log: seq<Happening>): (events: seq<Event<string>>)
    ensures |events| == |log|
    ensures forall i :: 0 <= i < |log| ==> events[i] == GateEvent(log[i])
  {
    seq(|log|, i requires 0 <= i < |log| => GateEvent(log[i]))
  }

  function RejectedAfter(log: seq<Happening>): Cache<string> {
    After(Events(log), DEAD_CHATS_MAX)
  }

  predicate RejectsAt(log: seq<Happening>, i: nat, chat: string, now: int)
    requires i < |log|
  {
    log[i].Rejected? && log[i].chatId == chat && now < log[i].now + TTL && ClearedAfter(log, i, chat) == false
  }

  predicate ClearedAfter(log: seq<Happening>, i: nat, chat: string) {
    exists j :: i < j < |log| && log[j].Alive? && log[j].chatId == chat
  }

  /** The conversation was rejected within the last ten minutes and not seen alive since. */
  predicate RejectedRecently(log: seq<Happening>, chat: string, now: int) {
    IsConversation(chat) && exists i :: 0 <= i < |log| && RejectsAt(log, i, chat, now)
  }

  function Rejectees(log: seq<Happening>): set<string> {
    set i | 0 <= i < |log| && log[i].Rejected? :: log[i].chatId
  }

  /** The conversations under rejection. */
  function LiveRejections(log: seq<Happening>, now: int): set<string> {
    set chat | chat in Rejectees(log) && RejectedRecently(log, chat, now)
  }

  predicate NeverCrowded(log: seq<Happening>) {
    forall i :: 0 <= i < |log| ==> |LiveRejections(log[..i + 1], log[i].now)| <= DEAD_CHATS_MAX
  }

  lemma EventsAreTimely(log: seq<Happening>)
    requires Chronological(log)
    ensures Timely(Events(log))
  {
    var events := Events(log);
    forall i, j | 0 <= i < j < |events|
      ensures events[i].floor <= events[j].floor
      ensures events[i].Mark? && events[j].Mark? ==> events[i].value <= events[j].value
    {
      assert log[i].now <= log[j].now;
    }
  }

  lemma RejectsSnoc(log: seq<Happening>, last: Happening, i: nat, chat: string, now: int)
    requires i < |log|
    ensures RejectsAt(log + [last], i, chat, now)
       <==> RejectsAt(log, i, chat, now) && !(last.Alive? && last.chatId == chat)
  {
    var all := log + [last];
    if ClearedAfter(log, i, chat) {
      var j :| i < j < |log| && log[j].Alive? && log[j].chatId == chat;
      assert all[j].Alive?;
    }
    if ClearedAfter(all, i, chat) {
      var j :| i < j < |all| && all[j].Alive? && all[j].chatId == chat;
      assert j < |log| ==> log[j].Alive?;
    }
    if last.Alive? && last.chatId == chat {
      assert all[|log|].Alive?;
    }
  }

  lemma RecentlySnoc(log: seq<Happening>, last: Happening, chat: string, now: int)
    ensures RejectedRecently(log + [last], chat, now) <==>
      IsConversation(chat) &&
      ((RejectedRecently(log, chat, now) && !(last.Alive? && last.chatId == chat))
        || (last.Rejected? && last.chatId == chat && now < last.now + TTL))
  {
    var all := log + [last];
    forall i | 0 <= i < |log|
      ensures RejectsAt(all, i, chat, now) <==> RejectsAt(log, i, chat, now) && !(last.Alive? && last.chatId == chat)
    {
      RejectsSnoc(log, last, i, chat, now);
    }
    assert RejectsAt(all, |log|, chat, now) <==> last.Rejected? && last.chatId == chat && now < last.now + TTL;
    if RejectedRecently(log, chat, now) {
      var i :| 0 <= i < |log| && RejectsAt(log, i, chat, now);
      assert RejectsAt(all, i, chat, now) || (last.Alive? && last.chatId == chat);
    }
  }

  lemma {:induction false} LatestIsLastRejected(log: seq<Happening>, chat: string, now: int)
    requires Chronological(log)
    ensures AtLeast(Latest(Events(log), chat), now + 1) <==> RejectedRecently(log, chat, now)
  {
    if log != [] {
      var before, last := log[..|log| - 1], Last(log);
      LatestIsLastRejected(before, chat, now);
      assert log == before + [last];
      RecentlySnoc(before, last, chat, now);
      assert Events(log)[..|log| - 1] == Events(before) && Last(Events(log)) == GateEvent(last);
      if last.Rejected? && last.chatId == chat && now >= last.now + TTL {
        NoLaterDeadline(before, last, chat, now);
      }
    }
  }

  lemma NoLaterDeadline(before: seq<Happening>, last: Happening, chat: string, now: int)
    requires Chronological(before + [last]) && now >= last.now + TTL
    ensures !RejectedRecently(before, chat, now)
  {
    var all := before + [last];
    forall i | 0 <= i < |before|
      ensures !RejectsAt(before, i, chat, now)
    {
      assert all[i].now <= all[|before|].now;
    }
  }

  lemma LiveAreCounting(log: seq<Happening>, now: int)
    requires Chronological(log)
    ensures LiveRejections(log, now) == Counting(Events(log), now + 1)
  {
    forall chat
      ensures chat in LiveRejections(log, now) <==> chat in Counting(Events(log), now + 1)
    {
      LatestIsLastRejected(log, chat, now);
      LatestIsMarked(Events(log), chat);
      if RejectedRecently(log, chat, now) {
        var i :| 0 <= i < |log| && RejectsAt(log, i, chat, now);
        assert log[i].chatId in Rejectees(log);
      }
    }
  }

  lemma UncrowdedFits(log: seq<Happening>)
    requires Chronological(log) && NeverCrowded(log)
    ensures Fitting(Events(log), DEAD_CHATS_MAX)
  {
    var events := Events(log);
    forall i | 0 <= i < |events| && events[i].Mark?
      ensures |Counting(events[..i + 1], events[i].floor)| <= DEAD_CHATS_MAX
    {
      assert events[..i + 1] == Events(log[..i + 1]);
      LiveAreCounting(log[..i + 1], log[i].now);
    }
  }

  /**
   While at most 512 conversations are under rejection at a time, a send is gated exactly when its
   chat was rejected within the last ten minutes, not seen alive since, and is not the owner's.
   */
  lemma GatedIsRejectedRecently(log: seq<Happening>, chat: string, now: int, ownerChat: string)
    requires Chronological(log) && NeverCrowded(log) && (log != [] ==> Last(log).now <= now)
    ensures Gated(RejectedAfter(log), chat, now, ownerChat) <==> chat != ownerChat && RejectedRecently(log, chat, now)
  {
    EventsAreTimely(log);
    UncrowdedFits(log);
    AnswersLikeLog(Events(log), DEAD_CHATS_MAX, chat, now + 1);
    LatestIsLastRejected(log, chat, now);
  }

  /** The bound is exact: with more conversations under rejection, one of them is not gated. */
  lemma CrowdedLetsOneThrough(log: seq<Happening>, now: int)
    requires Chronological(log) && |LiveRejections(log, now)| > DEAD_CHATS_MAX
    ensures exists chat ::
      RejectedRecently(log, chat, now) && forall owner: string :: !Gated(RejectedAfter(log), chat, now, owner)
  {
    LiveAreCounting(log, now);
    WrongWhenOverBound(Events(log), DEAD_CHATS_MAX, now + 1);
    var chat :| AtLeast(Latest(Events(log), chat), now + 1) && !Has(RejectedAfter(log), chat);
    LatestIsLastRejected(log, chat, now);
    GetFinds(RejectedAfter(log), chat);
  }

  /** However crowded, the map never holds more than 512 chats and stays in order of deadline. */
  lemma StaysInDeadlineOrder(log: seq<Happening>)
    requires Chronological(log)
    ensures Sorted(RejectedAfter(log)) && Distinct(RejectedAfter(log)) && |RejectedAfter(log)| <= DEAD_CHATS_MAX
  {
    EventsAreTimely(log);
    StaysSorted(Events(log), DEAD_CHATS_MAX);
    NeverOverBound(Events(log), DEAD_CHATS_MAX);
  }
}
