/**
 The window within which an identical message to the same chat counts as sent twice.
 */
module RecentEmits {
  import opened Common
  import opened RecencyCache

  const WINDOW := 5000
  const CACHE_MAX := 256

  datatype EmitKey = EmitKey(chatId: string, text: string)

  function KeyOf(chat: string, content: string): Option<EmitKey> {
    var text := Strip(BLANK, content);
    if chat == "" || text == "" then None else Some(EmitKey(chat, text))
  }

  /** A message that was sent; times are in milliseconds. */
  datatype Sent = Sent(chatId: string, content: string, now: int)

  function EmitEvent(sent: Sent): Event<EmitKey> {
    match KeyOf(sent.chatId, sent.content)
    case None => Other(sent.now - WINDOW)
    case Some(key) => Mark(key, sent.now, sent.now - WINDOW)
  }

  class EmitWindow {
    var recent: Cache<EmitKey>

    constructor ()
      ensures recent == []
    {
      recent := [];
    }

    method RecordEmit(chat: string, content: string, now: int)
      modifies this
      ensures recent == Apply(old(recent), EmitEvent(Sent(chat, content, now)), CACHE_MAX)
    {
      var key := KeyOf(chat, content);
      if key == None {
        return;
      }
      recent := Without(recent, key.value) + [Entry(key.value, now)];
      ghost var moved := recent;
      while |recent| > CACHE_MAX
        invariant |recent| <= |moved| && recent == moved[|moved| - |recent|..]
        invariant |moved| > CACHE_MAX ==> |recent| >= CACHE_MAX
        invariant |moved| <= CACHE_MAX ==> recent == moved
      {
        recent := recent[1..];
      }
    }

    predicate IsDuplicate(chat: string, content: string, now: int)
      reads this
    {
      Duplicate(recent, chat, content, now)
    }
  }

  predicate Duplicate(recent: Cache<EmitKey>, chat: string, content: string, now: int) {
    match KeyOf(chat, content)
    case None => false
    case Some(key) => Get(recent, key).Some? && now - Get(recent, key).value <= WINDOW
  }

  // --- Compared with the full log -------------------------------------------------------------------

  predicate Chronological(log: seq<Sent>) {
    forall i, j :: 0 <= i < j < |log| ==> log[i].now <= log[j].now
  }

  function Events(log: seq<Sent>): (events: seq<Event<EmitKey>>)
    ensures |events| == |log|
    ensures forall i :: 0 <= i < |log| ==> events[i] == EmitEvent(log[i])
  {
    seq(|log|, i requires 0 <= i < |log| => EmitEvent(log[i]))
  }

  function RecentAfter(log: seq<Sent>): Cache<EmitKey> {
    After(Events(log), CACHE_MAX)
  }

  predicate SentWithin(sent: Sent, key: EmitKey, now: int) {
    KeyOf(sent.chatId, sent.content) == Some(key) && now - sent.now <= WINDOW
  }

  /** The pair was sent within the window before this time. */
  predicate SentRecently(log: seq<Sent>, key: EmitKey, now: int) {
    exists i :: 0 <= i < |log| && SentWithin(log[i], key, now)
  }

  predicate IsEmit(sent: Sent) {
    KeyOf(sent.chatId, sent.content).Some?
  }

  function KeyAt(sent: Sent): EmitKey
    requires IsEmit(sent)
  {
    KeyOf(sent.chatId, sent.content).value
  }

  /** The distinct pairs sent within the window. */
  function RecentPairs(log: seq<Sent>, now: int): set<EmitKey> {
    set i | 0 <= i < |log| && IsEmit(log[i]) && now - log[i].now <= WINDOW :: KeyAt(log[i])
  }

  predicate NeverCrowded(log: seq<Sent>) {
    forall i :: 0 <= i < |log| ==> |RecentPairs(log[..i + 1], log[i].now)| <= CACHE_MAX
  }

  lemma EventsAreTimely(log: seq<Sent>)
    requires Chronological(log)
    ensures Timely(Events(log))
  {
  }

  lemma SentRecentlySnoc(log: seq<Sent>, last: Sent, key: EmitKey, now: int)
    ensures SentRecently(log + [last], key, now) <==> SentRecently(log, key, now) || SentWithin(last, key, now)
  {
    hide SentWithin;
    if i :| 0 <= i < |log| && SentWithin(log[i], key, now) {
      assert SentWithin((log + [last])[i], key, now);
    }
    if SentWithin(last, key, now) {
      assert SentWithin((log + [last])[|log|], key, now);
    }
  }

  lemma OlderOnesGoFirst(log: seq<Sent>, key: EmitKey, now: int)
    requires Chronological(log) && log != [] && SentRecently(log, key, now)
    ensures now - Last(log).now <= WINDOW
  {
  }

  lemma {:induction false} LatestIsLastSent(log: seq<Sent>, key: EmitKey, now: int)
    requires Chronological(log)
    ensures AtLeast(Latest(Events(log), key), now - WINDOW) <==> SentRecently(log, key, now)
  {
    hide KeyOf, SentRecently;
    if log == [] {
      NothingSent(key, now);
    } else {
      var before, last := log[..|log| - 1], Last(log);
      LatestIsLastSent(before, key, now);
      assert Events(log)[..|log| - 1] == Events(before) && Last(Events(log)) == EmitEvent(last);
      assert log == before + [last];
      SentRecentlySnoc(before, last, key, now);
      if SentRecently(log, key, now) {
        OlderOnesGoFirst(log, key, now);
      }
    }
  }

  lemma NothingSent(key: EmitKey, now: int)
    ensures !SentRecently([], key, now)
  {
  }

  lemma PairsAreCounting(log: seq<Sent>, now: int)
    requires Chronological(log)
    ensures RecentPairs(log, now) == Counting(Events(log), now - WINDOW)
  {
    var counting := Counting(Events(log), now - WINDOW);
    forall key
      ensures key in RecentPairs(log, now) <==> key in counting
    {
      LatestIsLastSent(log, key, now);
      LatestIsMarked(Events(log), key);
      if key in RecentPairs(log, now) {
        var i :| 0 <= i < |log| && IsEmit(log[i]) && now - log[i].now <= WINDOW && KeyAt(log[i]) == key;
        assert SentWithin(log[i], key, now);
      }
      if SentRecently(log, key, now) {
        var i :| 0 <= i < |log| && SentWithin(log[i], key, now);
        assert IsEmit(log[i]) && KeyAt(log[i]) == key;
      }
    }
  }

  lemma UncrowdedFits(log: seq<Sent>)
    requires Chronological(log) && NeverCrowded(log)
    ensures Fitting(Events(log), CACHE_MAX)
  {
    var events := Events(log);
    forall i | 0 <= i < |events| && events[i].Mark?
      ensures |Counting(events[..i + 1], events[i].floor)| <= CACHE_MAX
    {
      assert events[..i + 1] == Events(log[..i + 1]);
      PairsAreCounting(log[..i + 1], log[i].now);
    }
  }

  /**
   While at most 256 pairs fall into the window at every send, a message is called a duplicate
   exactly when the same text, stripped, went to the same chat within the last five seconds.
   */
  lemma DuplicateIsSentRecently(log: seq<Sent>, chat: string, content: string, now: int)
    requires Chronological(log) && NeverCrowded(log) && (log != [] ==> Last(log).now <= now)
    ensures Duplicate(RecentAfter(log), chat, content, now)
       <==> KeyOf(chat, content).Some? && SentRecently(log, KeyOf(chat, content).value, now)
  {
    EventsAreTimely(log);
    UncrowdedFits(log);
    if KeyOf(chat, content).Some? {
      AnswersLikeLog(Events(log), CACHE_MAX, KeyOf(chat, content).value, now - WINDOW);
      LatestIsLastSent(log, KeyOf(chat, content).value, now);
    }
  }

  /** The pair of a nonempty chat and the nonempty text without the blanks around it. */
  ghost predicate Names(key: EmitKey, chat: string, content: string) {
    key.chatId == chat && chat != "" && key.text != "" && StripsTo(BLANK, content, key.text)
  }

  lemma KeyExactly(chat: string, content: string, key: EmitKey)
    ensures KeyOf(chat, content) == Some(key) <==> Names(key, chat, content)
  {
    StripExactly(BLANK, content, key.text);
  }

  /** The same text, up to the blanks around it, went to the same chat. */
  ghost predicate SentAlike(sent: Sent, chat: string, content: string) {
    exists key :: Names(key, chat, content) && Names(key, sent.chatId, sent.content)
  }

  /** The same with the pairs spelled out. */
  lemma DuplicateExactlyWhen(log: seq<Sent>, chat: string, content: string, now: int)
    requires Chronological(log) && NeverCrowded(log) && (log != [] ==> Last(log).now <= now)
    ensures Duplicate(RecentAfter(log), chat, content, now)
       <==> exists i :: 0 <= i < |log| && SentAlike(log[i], chat, content) && now - log[i].now <= 5000
  {
    DuplicateIsSentRecently(log, chat, content, now);
    if key :| KeyOf(chat, content) == Some(key) && SentRecently(log, key, now) {
      var i :| 0 <= i < |log| && SentWithin(log[i], key, now);
      KeyExactly(chat, content, key);
      KeyExactly(log[i].chatId, log[i].content, key);
      assert SentAlike(log[i], chat, content);
    }
    if i :| 0 <= i < |log| && SentAlike(log[i], chat, content) && now - log[i].now <= 5000 {
      var key :| Names(key, chat, content) && Names(key, log[i].chatId, log[i].content);
      KeyExactly(chat, content, key);
      KeyExactly(log[i].chatId, log[i].content, key);
      assert SentWithin(log[i], key, now);
    }
  }

  lemma KeyIsItsOwn(chat: string, content: string)
    ensures KeyOf(chat, content).Some? ==>
      var key := KeyOf(chat, content).value; KeyOf(key.chatId, key.text) == Some(key)
  {
    StripUnpads(BLANK, content);
    StripUnpads(BLANK, Strip(BLANK, content));
  }

  /** The bound is exact: with more pairs in the window, some duplicate goes unnoticed. */
  lemma CrowdedMissesDuplicate(log: seq<Sent>, now: int)
    requires Chronological(log) && |RecentPairs(log, now)| > CACHE_MAX
    ensures exists key :: SentRecently(log, key, now) && !Duplicate(RecentAfter(log), key.chatId, key.text, now)
  {
    PairsAreCounting(log, now);
    WrongWhenOverBound(Events(log), CACHE_MAX, now - WINDOW);
    var key :| AtLeast(Latest(Events(log), key), now - WINDOW) && !Has(RecentAfter(log), key);
    LatestIsLastSent(log, key, now);
    GetFinds(RecentAfter(log), key);
    var i :| 0 <= i < |log| && SentWithin(log[i], key, now);
    KeyIsItsOwn(log[i].chatId, log[i].content);
  }
}
