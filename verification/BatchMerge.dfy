/**
 The merge of a held batch into one inbound message, and the search for the
 message id that triggered a turn. A merged message can itself be queued and
 merged again, so the results are stated about trees of merges.
 */
module BatchMerge {
  import opened Common

  /** A mention entry; an entry without a usable id has the id "". */
  datatype Mention = Mention(id: string, name: string)

  /** A raw message as the merge sees it; a frame without an id carries "". */
  datatype Raw =
    | NotADict
    | Frame(messageId: string)
    | Batch(messages: seq<Raw>)

  datatype InboundMessage = InboundMessage(
    senderId: string,
    senderName: string,
    raw: Raw,
    mediaUrls: seq<string>,
    mediaTypes: seq<string>,
    wasMentioned: bool,
    mentionedUserIds: seq<string>,
    mentionedUsers: seq<Mention>,
    synthetic: bool,
    grantRequest: Option<string>,
    batchSpeakers: Option<seq<string>>)
  {
    function Mentions(): seq<Mention> {
      if mentionedUsers != [] then mentionedUsers
      else seq(|mentionedUserIds|, i requires 0 <= i < |mentionedUserIds| => Mention(mentionedUserIds[i], ""))
    }

    /** Whose authority the message carries. */
    function GrantSpeakers(): seq<string> {
      if synthetic then
        (match grantRequest case Some(owner) => [owner] case None => [])
      else
        match batchSpeakers case Some(speakers) => speakers case None => [senderId]
    }
  }

  function MentionId(m: Mention): string { m.id }

  function Same(s: string): string { s }

  function IfIdentified(m: Mention): seq<Mention> {
    if m.id == "" then [] else [m]
  }

  function Identified(mentions: seq<Mention>): seq<Mention> {
    FlatMap(IfIdentified, mentions)
  }

  function Ids(mentions: seq<Mention>): seq<string> {
    seq(|mentions|, i requires 0 <= i < |mentions| => mentions[i].id)
  }

  // What a batch says, message after message, before any filtering.

  function MessageMentions(m: InboundMessage): seq<Mention> { Identified(m.Mentions()) }

  function MessageSpeakers(m: InboundMessage): seq<string> { m.GrantSpeakers() }

  function MessageMediaUrls(m: InboundMessage): seq<string> { m.mediaUrls }

  function MessageMediaTypes(m: InboundMessage): seq<string> { m.mediaTypes }

  function AllMentions(batch: seq<InboundMessage>): seq<Mention> { FlatMap(MessageMentions, batch) }

  function AllSpeakers(batch: seq<InboundMessage>): seq<string> { FlatMap(MessageSpeakers, batch) }

  function AllMediaUrls(batch: seq<InboundMessage>): seq<string> { FlatMap(MessageMediaUrls, batch) }

  function AllMediaTypes(batch: seq<InboundMessage>): seq<string> { FlatMap(MessageMediaTypes, batch) }

  predicate AnyMentioned(batch: seq<InboundMessage>) {
    exists i :: 0 <= i < |batch| && batch[i].wasMentioned
  }

  predicate AllSynthetic(batch: seq<InboundMessage>) {
    forall i :: 0 <= i < |batch| ==> batch[i].synthetic
  }

  function Raws(batch: seq<InboundMessage>): seq<Raw> {
    seq(|batch|, i requires 0 <= i < |batch| => batch[i].raw)
  }

  function MergedMentions(batch: seq<InboundMessage>): seq<Mention> {
    FirstBy(MentionId, AllMentions(batch))
  }

  function Merge(batch: seq<InboundMessage>): InboundMessage
    requires batch != []
  {
    var users := MergedMentions(batch);
    Last(batch).(
      raw := Batch(Raws(batch)),
      mediaUrls := AllMediaUrls(batch),
      mediaTypes := AllMediaTypes(batch),
      wasMentioned := AnyMentioned(batch),
      mentionedUserIds := Ids(users),
      mentionedUsers := users,
      synthetic := AllSynthetic(batch),
      batchSpeakers := Some(FirstBy(Same, AllSpeakers(batch))))
  }

  ghost predicate SeenIdsOf(seen: set<string>, read: seq<Mention>) {
    forall k :: k in seen <==> HasKey(MentionId, read, k)
  }

  lemma SeenSnoc(seen: set<string>, read: seq<Mention>, mention: Mention)
    requires SeenIdsOf(seen, read)
    ensures SeenIdsOf(seen + {mention.id}, read + [mention])
    ensures mention.id in seen ==> SeenIdsOf(seen, read + [mention])
  {
    forall k ensures HasKey(MentionId, read + [mention], k) <==> k in seen || k == mention.id {
      HasKeySnoc(MentionId, read, mention, k);
    }
  }

  ghost predicate MergedSoFar(read: seq<Mention>, ids: seq<string>, users: seq<Mention>, seen: set<string>) {
    users == FirstBy(MentionId, read) && ids == Ids(users) && SeenIdsOf(seen, read)
  }

  lemma MergeStep(read: seq<Mention>, ids: seq<string>, users: seq<Mention>, seen: set<string>, m: Mention)
    requires MergedSoFar(read, ids, users, seen)
    ensures m.id in seen ==> MergedSoFar(read + [m], ids, users, seen)
    ensures m.id !in seen ==> MergedSoFar(read + [m], ids + [m.id], users + [m], seen + {m.id})
  {
    FirstBySnoc(MentionId, read, m);
    SeenSnoc(seen, read, m);
  }

  /** The inner loop: one message's mentions, with the ids already seen. */
  method MergeMessage(
      mentions: seq<Mention>, ids0: seq<string>, users0: seq<Mention>, seen0: set<string>, ghost read: seq<Mention>)
    returns (ids: seq<string>, users: seq<Mention>, seen: set<string>)
    requires MergedSoFar(read, ids0, users0, seen0)
    ensures MergedSoFar(read + Identified(mentions), ids, users, seen)
  {
    ids, users, seen := ids0, users0, seen0;
    assert read + Identified(mentions[..0]) == read;
    for j := 0 to |mentions|
      invariant MergedSoFar(read + Identified(mentions[..j]), ids, users, seen)
    {
      var mention := mentions[j];
      IdentifiedTake(mentions, j, read);
      if mention.id != "" {
        MergeStep(read + Identified(mentions[..j]), ids, users, seen, mention);
        if mention.id !in seen {
          ids := ids + [mention.id];
          users := users + [mention];
          seen := seen + {mention.id};
        }
      }
    }
    assert mentions[..|mentions|] == mentions;
  }

  lemma IdentifiedTake(mentions: seq<Mention>, j: nat, read: seq<Mention>)
    requires j < |mentions|
    ensures mentions[j].id == "" ==> read + Identified(mentions[..j + 1]) == read + Identified(mentions[..j])
    ensures mentions[j].id != "" ==>
      read + Identified(mentions[..j + 1]) == read + Identified(mentions[..j]) + [mentions[j]]
  {
    FlatMapTake(IfIdentified, mentions, j);
  }

  /** The two nested loops of the merge, with their set of ids already seen. */
  method MergeMentions(batch: seq<InboundMessage>) returns (ids: seq<string>, users: seq<Mention>)
    ensures users == MergedMentions(batch)
    ensures ids == Ids(users)
  {
    ids, users := [], [];
    var seen: set<string> := {};
    for i := 0 to |batch|
      invariant MergedSoFar(AllMentions(batch[..i]), ids, users, seen)
    {
      ids, users, seen := MergeMessage(batch[i].Mentions(), ids, users, seen, AllMentions(batch[..i]));
      FlatMapTake(MessageMentions, batch, i);
    }
    assert batch[..|batch|] == batch;
  }

  method MergeBatch(batch: seq<InboundMessage>) returns (merged: InboundMessage)
    requires batch != []
    ensures merged == Merge(batch)
  {
    var ids, users := MergeMentions(batch);
    merged := batch[|batch| - 1].(
      raw := Batch(Raws(batch)),
      mediaUrls := AllMediaUrls(batch),
      mediaTypes := AllMediaTypes(batch),
      wasMentioned := AnyMentioned(batch),
      mentionedUserIds := ids,
      mentionedUsers := users,
      synthetic := AllSynthetic(batch),
      batchSpeakers := Some(FirstBy(Same, AllSpeakers(batch))));
  }

  // --- Merging merged batches ------------------------------------------------

  /** How a message came about: received, or merged from earlier ones. */
  datatype History = Received(message: InboundMessage) | Merged(parts: seq<History>)

  ghost predicate WellFormed(h: History) {
    match h
    case Received(_) => true
    case Merged(parts) => parts != [] && forall p :: p in parts ==> WellFormed(p)
  }

  function Value(h: History): InboundMessage
    requires WellFormed(h)
    decreases h, 1
  {
    match h
    case Received(message) => message
    case Merged(parts) => Merge(Values(parts))
  }

  function Values(hs: seq<History>): (batch: seq<InboundMessage>)
    requires forall h :: h in hs ==> WellFormed(h)
    ensures |batch| == |hs|
    decreases hs, 0
  {
    if hs == [] then [] else Values(hs[..|hs| - 1]) + [Value(Last(hs))]
  }

  function Originals(h: History): seq<InboundMessage>
    decreases h, 1
  {
    match h
    case Received(message) => [message]
    case Merged(parts) => OriginalsOf(parts)
  }

  function OriginalsOf(hs: seq<History>): seq<InboundMessage>
    decreases hs, 0
  {
    if hs == [] then [] else OriginalsOf(hs[..|hs| - 1]) + Originals(Last(hs))
  }

  lemma {:induction false} IdentifiedKeepsIdentified(s: seq<Mention>)
    requires forall i :: 0 <= i < |s| ==> s[i].id != ""
    ensures Identified(s) == s
  {
    if s != [] {
      IdentifiedKeepsIdentified(s[..|s| - 1]);
      assert s == s[..|s| - 1] + [Last(s)];
    }
  }

  lemma {:induction false} FirstByMembers<T, K>(key: T -> K, s: seq<T>, x: T)
    requires x in FirstBy(key, s)
    ensures x in s
  {
    if s != [] && x != Last(s) {
      FirstByMembers(key, s[..|s| - 1], x);
    }
  }

  lemma AllMentionsHaveIds(batch: seq<InboundMessage>, x: Mention)
    requires x in AllMentions(batch)
    ensures x.id != ""
  {
    FlatMapMembers(MessageMentions, batch, x);
    var i :| 0 <= i < |batch| && x in MessageMentions(batch[i]);
    FlatMapMembers(IfIdentified, batch[i].Mentions(), x);
  }

  /** A merged message mentions exactly what the merge listed. */
  lemma MergedMessageMentions(batch: seq<InboundMessage>)
    requires batch != []
    ensures Identified(Merge(batch).Mentions()) == MergedMentions(batch)
  {
    var users := MergedMentions(batch);
    forall i | 0 <= i < |users| ensures users[i].id != "" {
      FirstByMembers(MentionId, AllMentions(batch), users[i]);
      AllMentionsHaveIds(batch, users[i]);
    }
    IdentifiedKeepsIdentified(users);
  }

  lemma AllConcat(a: seq<InboundMessage>, b: seq<InboundMessage>)
    ensures AllMentions(a + b) == AllMentions(a) + AllMentions(b)
    ensures AllSpeakers(a + b) == AllSpeakers(a) + AllSpeakers(b)
    ensures AllMediaUrls(a + b) == AllMediaUrls(a) + AllMediaUrls(b)
    ensures AllMediaTypes(a + b) == AllMediaTypes(a) + AllMediaTypes(b)
  {
    FlatMapConcat(MessageMentions, a, b);
    FlatMapConcat(MessageSpeakers, a, b);
    FlatMapConcat(MessageMediaUrls, a, b);
    FlatMapConcat(MessageMediaTypes, a, b);
  }

  lemma AnyMentionedConcat(a: seq<InboundMessage>, b: seq<InboundMessage>)
    ensures AnyMentioned(a + b) <==> AnyMentioned(a) || AnyMentioned(b)
  {
    if AnyMentioned(a) {
      var i :| 0 <= i < |a| && a[i].wasMentioned;
      assert (a + b)[i].wasMentioned;
    }
    if AnyMentioned(b) {
      var i :| 0 <= i < |b| && b[i].wasMentioned;
      assert (a + b)[|a| + i].wasMentioned;
    }
  }

  /** Main result: however often it was merged before, a merged message carries
      the mentions (first occurrence per id), media and mention flag of a single
      merge of all the original messages. */
  lemma {:induction false} RemergingLosesNothing(h: History)
    requires WellFormed(h) && h.Merged?
    ensures Value(h).mentionedUsers == MergedMentions(Originals(h))
    ensures Value(h).mentionedUserIds == Ids(MergedMentions(Originals(h)))
    ensures Value(h).mediaUrls == AllMediaUrls(Originals(h))
    ensures Value(h).mediaTypes == AllMediaTypes(Originals(h))
    ensures Value(h).wasMentioned == AnyMentioned(Originals(h))
    decreases h, 1
  {
    RemergingParts(h.parts);
  }

  lemma {:induction false} RemergingParts(hs: seq<History>)
    requires forall h :: h in hs ==> WellFormed(h)
    ensures FirstBy(MentionId, AllMentions(Values(hs))) == FirstBy(MentionId, AllMentions(OriginalsOf(hs)))
    ensures AllMediaUrls(Values(hs)) == AllMediaUrls(OriginalsOf(hs))
    ensures AllMediaTypes(Values(hs)) == AllMediaTypes(OriginalsOf(hs))
    ensures AnyMentioned(Values(hs)) == AnyMentioned(OriginalsOf(hs))
    decreases hs, 0
  {
    if hs != [] {
      var before, last := hs[..|hs| - 1], Last(hs);
      RemergingParts(before);
      var v, o := Value(last), Originals(last);
      AllConcat(Values(before), [v]);
      AllConcat(OriginalsOf(before), o);
      AnyMentionedConcat(Values(before), [v]);
      AnyMentionedConcat(OriginalsOf(before), o);
      Singleton(v);
      var a, b := AllMentions(Values(before)), AllMentions(OriginalsOf(before));
      if last.Merged? {
        RemergingLosesNothing(last);
        MergedMessageMentions(Values(last.parts));
        assert AllMentions([v]) == MergedMentions(o);
        FirstByAbsorb(MentionId, b, AllMentions(o));
      }
      FirstByPrefix(MentionId, a, AllMentions([v]));
      FirstByPrefix(MentionId, b, AllMentions([v]));
    }
  }

  lemma Singleton(m: InboundMessage)
    ensures AllMentions([m]) == Identified(m.Mentions())
    ensures AllSpeakers([m]) == m.GrantSpeakers()
    ensures AllMediaUrls([m]) == m.mediaUrls
    ensures AllMediaTypes([m]) == m.mediaTypes
    ensures AnyMentioned([m]) == m.wasMentioned
  {
    FlatMapSingle(MessageMentions, m);
    FlatMapSingle(MessageSpeakers, m);
    FlatMapSingle(MessageMediaUrls, m);
    FlatMapSingle(MessageMediaTypes, m);
    assert [m][0] == m;
  }

  // --- Speaker authority -------------------------------------------------------

  /** A message every one of whose authorities the latest message also has. */
  predicate CoveredByLatest(batch: seq<InboundMessage>)
    requires batch != []
  {
    forall i :: 0 <= i < |batch| ==>
      forall s :: s in batch[i].GrantSpeakers() ==> s in Last(batch).GrantSpeakers()
  }

  lemma {:induction false} FirstBySameMembers(s: seq<string>, x: string)
    ensures x in FirstBy(Same, s) <==> x in s
  {
    FirstByKeys(Same, s, x);
    if x in s { var i :| 0 <= i < |s| && s[i] == x; assert Same(s[i]) == x; }
    var f := FirstBy(Same, s);
    if x in f { var i :| 0 <= i < |f| && f[i] == x; assert Same(f[i]) == x; }
  }

  lemma {:induction false} FirstByOfOne(s: seq<string>, x: string)
    requires s != [] && forall y :: y in s ==> y == x
    ensures FirstBy(Same, s) == [x]
  {
    var before := s[..|s| - 1];
    assert s[|s| - 1] in s;
    if before != [] {
      forall y | y in before ensures y == x { assert y in s; }
      FirstByOfOne(before, x);
      assert Same([x][0]) == x && HasKey(Same, [x], x);
    } else {
      assert FirstBy(Same, before) == [];
    }
  }

  /** Re-merging keeps every speaker's authority exactly when the batch is not
      made of internal messages only, or its latest message speaks for all. */
  lemma SpeakersKeptExactlyWhen(batch: seq<InboundMessage>)
    requires batch != []
    ensures FirstBy(Same, Merge(batch).GrantSpeakers()) == FirstBy(Same, AllSpeakers(batch))
       <==> !AllSynthetic(batch) || CoveredByLatest(batch)
  {
    var all := AllSpeakers(batch);
    if !AllSynthetic(batch) {
      FirstByIdempotent(Same, all);
    } else {
      var latest := Last(batch);
      assert latest.synthetic;
      assert Merge(batch).GrantSpeakers() == latest.GrantSpeakers();
      forall s ensures s in all <==> exists i :: 0 <= i < |batch| && s in MessageSpeakers(batch[i]) {
        FlatMapMembers(MessageSpeakers, batch, s);
      }
      forall s
        ensures s in FirstBy(Same, all) <==> s in all
        ensures s in FirstBy(Same, latest.GrantSpeakers()) <==> s in latest.GrantSpeakers()
      {
        FirstBySameMembers(all, s);
        FirstBySameMembers(latest.GrantSpeakers(), s);
      }
      if CoveredByLatest(batch) {
        match latest.grantRequest
        case Some(owner) =>
          assert owner in latest.GrantSpeakers() && latest == batch[|batch| - 1];
          FirstByOfOne(all, owner);
          FirstByOfOne(latest.GrantSpeakers(), owner);
        case None =>
          EmptyOrMember(all);
      } else {
        var i, s :| 0 <= i < |batch| && s in batch[i].GrantSpeakers() && s !in latest.GrantSpeakers();
        assert s in MessageSpeakers(batch[i]);
        assert s in all;
      }
    }
  }

  ghost predicate SpeakersCovered(h: History)
    requires WellFormed(h)
    decreases h
  {
    match h
    case Received(_) => true
    case Merged(parts) =>
      && (!AllSynthetic(Values(parts)) || CoveredByLatest(Values(parts)))
      && forall p :: p in parts ==> SpeakersCovered(p)
  }

  lemma {:induction false} RemergingKeepsSpeakers(h: History)
    requires WellFormed(h) && SpeakersCovered(h)
    ensures FirstBy(Same, Value(h).GrantSpeakers()) == FirstBy(Same, AllSpeakers(Originals(h)))
    decreases h, 1
  {
    match h
    case Received(m) => Singleton(m);
    case Merged(parts) =>
      SpeakersKeptExactlyWhen(Values(parts));
      RemergingSpeakersParts(parts);
  }

  lemma {:induction false} RemergingSpeakersParts(hs: seq<History>)
    requires forall h :: h in hs ==> WellFormed(h) && SpeakersCovered(h)
    ensures FirstBy(Same, AllSpeakers(Values(hs))) == FirstBy(Same, AllSpeakers(OriginalsOf(hs)))
    decreases hs, 0
  {
    if hs != [] {
      var before, last := hs[..|hs| - 1], Last(hs);
      RemergingSpeakersParts(before);
      RemergingKeepsSpeakers(last);
      var v, o := Value(last).GrantSpeakers(), AllSpeakers(Originals(last));
      AllConcat(OriginalsOf(before), Originals(last));
      assert Values(hs)[..|hs| - 1] == Values(before);
      var a, b := AllSpeakers(Values(before)), AllSpeakers(OriginalsOf(before));
      FirstByPrefix(Same, a, v);
      FirstByPrefix(Same, b, v);
      FirstByAbsorb(Same, b, v);
      FirstByAbsorb(Same, b, o);
    }
  }

  // --- The triggering message id ---------------------------------------------

  const TRIGGER_STEPS := 32

  function Dicts(messages: seq<Raw>): seq<Raw> {
    if messages == [] then []
    else Dicts(messages[..|messages| - 1]) + (if Last(messages).NotADict? then [] else [Last(messages)])
  }

  lemma {:induction false} DictsInMessages(messages: seq<Raw>)
    ensures forall m :: m in Dicts(messages) ==> m in messages && !m.NotADict?
  {
    if messages != [] {
      DictsInMessages(messages[..|messages| - 1]);
    }
  }

  /** The frame a walk along last messages ends in, and how many batches it opens. */
  function LastFrame(raw: Raw): (r: (string, nat))
    decreases raw
  {
    match raw
    case NotADict => ("", 0)
    case Frame(messageId) => (messageId, 0)
    case Batch(messages) =>
      var dicts := Dicts(messages);
      if dicts == [] then ("", 1)
      else
        DictsInMessages(messages);
        assert Last(dicts) in messages;
        var (id, depth) := LastFrame(Last(dicts));
        (id, depth + 1)
  }

  /** The last frame's id if it lies under at most 31 batches, else the empty id. */
  function TriggerOf(raw: Raw): string {
    if LastFrame(raw).1 < TRIGGER_STEPS then LastFrame(raw).0 else ""
  }

  /** The bounded search for the triggering message. */
  method TriggerId(raw: Raw) returns (id: string)
    ensures id == TriggerOf(raw)
  {
    if raw.NotADict? {
      return "";
    }
    var inner := raw;
    for step := 0 to TRIGGER_STEPS
      invariant !inner.NotADict?
      invariant LastFrame(raw) == (LastFrame(inner).0, LastFrame(inner).1 + step)
    {
      if inner.Frame? {
        return inner.messageId;
      }
      var dicts := Dicts(inner.messages);
      DictsInMessages(inner.messages);
      inner := if dicts != [] then Last(dicts) else Frame("");
    }
    return "";
  }

  function NestingAtEnd(h: History): nat
    requires WellFormed(h)
  {
    match h
    case Received(_) => 0
    case Merged(parts) => 1 + NestingAtEnd(Last(parts))
  }

  lemma {:induction false} HasOriginals(h: History)
    requires WellFormed(h)
    ensures Originals(h) != []
    ensures h.Merged? ==> Originals(Last(h.parts)) != [] && Last(Originals(h)) == Last(Originals(Last(h.parts)))
  {
    if h.Merged? {
      HasOriginals(Last(h.parts));
    }
  }

  /** The last message the walk comes to is an inbound frame. */
  predicate EndsInFrame(h: History) {
    Originals(h) != [] && Last(Originals(h)).raw.Frame?
  }

  /** Up to 31 nested merges the trigger is the last original message; deeper
      nesting finds nothing. */
  lemma TriggerIsLastOriginal(h: History)
    requires WellFormed(h) && EndsInFrame(h)
    ensures TriggerOf(Value(h).raw)
         == if NestingAtEnd(h) <= 31 then Last(Originals(h)).raw.messageId else ""
  {
    LastFrameIsLastOriginal(h);
  }

  /** Along any nesting of merges the walk ends in the last original frame. */
  lemma {:induction false} LastFrameIsLastOriginal(h: History)
    requires WellFormed(h) && EndsInFrame(h)
    ensures LastFrame(Value(h).raw) == (Last(Originals(h)).raw.messageId, NestingAtEnd(h))
    ensures !Value(h).raw.NotADict?
    decreases h
  {
    if h.Merged? {
      var last := Last(h.parts);
      HasOriginals(h);
      LastFrameIsLastOriginal(last);
      var raws := Raws(Values(h.parts));
      assert Last(raws) == Value(last).raw;
      assert Last(Dicts(raws)) == Last(raws);
    }
  }
}
