/**
 What one merged batch carries, read off its messages: who is mentioned, who speaks, and in which
 order.
 */
module BatchContents {
  import opened Common
  import opened BatchMerge

  // --- First occurrences -----------------------------------------------------------------------------

  /** No item before it has the same key. */
  predicate IsFirst<T, K(==)>(key: T -> K, s: seq<T>, i: nat)
    requires i < |s|
  {
    forall j :: 0 <= j < i ==> key(s[j]) != key(s[i])
  }

  predicate AreFirst<T, K(==)>(key: T -> K, s: seq<T>, places: seq<nat>) {
    forall i :: 0 <= i < |s| ==> (i in places <==> IsFirst(key, s, i))
  }

  lemma FirstSnoc<T, K>(key: T -> K, s: seq<T>, x: T, places: seq<nat>, found: seq<T>)
    requires AreFirst(key, s, places) && FoundAt(s, places, found)
    ensures HasKey(key, s, key(x)) ==> AreFirst(key, s + [x], places) && FoundAt(s + [x], places, found)
    ensures !HasKey(key, s, key(x)) ==>
      AreFirst(key, s + [x], places + [|s|]) && FoundAt(s + [x], places + [|s|], found + [x])
  {
    var all, more := s + [x], places + [|s|];
    assert IsFirst(key, all, |s|) <==> !HasKey(key, s, key(x)) by {
      assert all[|s|] == x && forall j :: 0 <= j < |s| ==> all[j] == s[j];
    }
    forall i | 0 <= i < |s|
      ensures IsFirst(key, all, i) <==> IsFirst(key, s, i)
      ensures i in more <==> i in places
    {
      FirstInLonger(key, s, x, i);
    }
  }

  lemma FirstInLonger<T, K>(key: T -> K, s: seq<T>, x: T, i: nat)
    requires i < |s|
    ensures IsFirst(key, s + [x], i) <==> IsFirst(key, s, i)
  {
    assert forall j :: 0 <= j <= i ==> (s + [x])[j] == s[j];
  }

  /** The filter keeps the items that no earlier one shares its key with, in order. */
  lemma {:induction false} FirstByPlaces<T, K>(key: T -> K, s: seq<T>) returns (places: seq<nat>)
    ensures AreFirst(key, s, places) && FoundAt(s, places, FirstBy(key, s))
  {
    places := [];
    if s != [] {
      var before, last := s[..|s| - 1], Last(s);
      places := FirstByPlaces(key, before);
      assert s == before + [last];
      FirstSnoc(key, before, last, places, FirstBy(key, before));
      FirstBySnoc(key, before, last);
      places := if HasKey(key, before, key(last)) then places else places + [|before|];
    }
  }

  // --- Mentions ----------------------------------------------------------------------------------------

  /** The message mentions the user, in its entries or, without any, by a bare id. */
  predicate Mentions(m: InboundMessage, id: string) {
    if m.mentionedUsers == [] then id in m.mentionedUserIds
    else exists i :: 0 <= i < |m.mentionedUsers| && m.mentionedUsers[i].id == id
  }

  lemma IdentifiedExactly(mentions: seq<Mention>, x: Mention)
    ensures x in Identified(mentions) <==> x in mentions && x.id != ""
  {
    FlatMapMembers(IfIdentified, mentions, x);
  }

  lemma MessageMentionsExactly(m: InboundMessage, id: string)
    ensures (exists x :: x in MessageMentions(m) && x.id == id) <==> id != "" && Mentions(m, id)
  {
    var all := m.Mentions();
    forall x
      ensures x in MessageMentions(m) <==> x in all && x.id != ""
    {
      IdentifiedExactly(all, x);
    }
    if id != "" && Mentions(m, id) {
      if m.mentionedUsers == [] {
        var i :| 0 <= i < |m.mentionedUserIds| && m.mentionedUserIds[i] == id;
        assert all[i] in all && all[i].id == id;
      } else {
        var i :| 0 <= i < |m.mentionedUsers| && m.mentionedUsers[i].id == id;
        assert all[i] in all;
      }
    }
  }

  lemma IdsNamed(users: seq<Mention>, id: string)
    ensures id in Ids(users) <==> HasKey(MentionId, users, id)
    ensures HasKey(MentionId, users, id) <==> exists x :: x in users && x.id == id
  {
    if k :| 0 <= k < |users| && MentionId(users[k]) == id {
      assert Ids(users)[k] == id && users[k] in users;
    }
    if x :| x in users && x.id == id {
      var k :| 0 <= k < |users| && users[k] == x;
      assert MentionId(users[k]) == id;
    }
  }

  /** A user is among a merged message's mentions if and only if a message of the batch mentions it. */
  lemma MentionedExactly(batch: seq<InboundMessage>, id: string)
    requires batch != []
    ensures id in Merge(batch).mentionedUserIds
       <==> id != "" && exists i :: 0 <= i < |batch| && Mentions(batch[i], id)
  {
    hide Mentions, MessageMentions, FirstBy, AllMentions, Ids;
    var all := AllMentions(batch);
    IdsNamed(MergedMentions(batch), id);
    FirstByKeys(MentionId, all, id);
    IdsNamed(all, id);
    if x :| x in all && x.id == id {
      MentionComesFrom(batch, x);
      var i :| 0 <= i < |batch| && x in MessageMentions(batch[i]);
      MessageMentionsExactly(batch[i], id);
    }
    if i :| 0 <= i < |batch| && id != "" && Mentions(batch[i], id) {
      MessageMentionsExactly(batch[i], id);
      var x :| x in MessageMentions(batch[i]) && x.id == id;
      MentionComesFrom(batch, x);
    }
  }

  lemma MentionComesFrom(batch: seq<InboundMessage>, x: Mention)
    ensures x in AllMentions(batch) <==> exists i :: 0 <= i < |batch| && x in MessageMentions(batch[i])
  {
    FlatMapMembers(MessageMentions, batch, x);
  }

  // --- Speakers ---------------------------------------------------------------------------------------

  /** The message carries the user's authority: of its sender or its merged speakers, or, for one the
      gateway made itself, of the owner whose request it grants. */
  predicate Speaks(m: InboundMessage, x: string) {
    if m.synthetic then m.grantRequest == Some(x)
    else if m.batchSpeakers.Some? then x in m.batchSpeakers.value
    else x == m.senderId
  }

  /** A merged batch names exactly those who speak in it, none twice. */
  lemma SpeakersExactly(batch: seq<InboundMessage>, x: string)
    requires batch != []
    ensures Merge(batch).batchSpeakers.Some?
    ensures x in Merge(batch).batchSpeakers.value <==> exists i :: 0 <= i < |batch| && Speaks(batch[i], x)
    ensures forall j, k :: 0 <= j < k < |Merge(batch).batchSpeakers.value| ==>
      Merge(batch).batchSpeakers.value[j] != Merge(batch).batchSpeakers.value[k]
  {
    var all := AllSpeakers(batch);
    FirstBySameMembers(all, x);
    FlatMapMembers(MessageSpeakers, batch, x);
    forall i | 0 <= i < |batch|
      ensures Speaks(batch[i], x) <==> x in MessageSpeakers(batch[i])
    {
    }
    var places := FirstByPlaces(Same, all);
    DistinctPlaces(all, places, FirstBy(Same, all));
  }

  lemma DistinctPlaces(s: seq<string>, places: seq<nat>, found: seq<string>)
    requires AreFirst(Same, s, places) && FoundAt(s, places, found)
    ensures forall j, k :: 0 <= j < k < |found| ==> found[j] != found[k]
  {
    forall j, k | 0 <= j < k < |found|
      ensures found[j] != found[k]
    {
      assert places[k] in places && IsFirst(Same, s, places[k]);
      assert Same(s[places[j]]) != Same(s[places[k]]);
    }
  }
}
