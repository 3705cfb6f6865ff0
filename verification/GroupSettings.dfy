/**
 Per-group settings pulled from the backend. Pulls may finish out of order; each carries the
 sequence number given when it was started.
 */
module GroupSettings {
  import opened Common

  datatype Row = Row(conversationId: string, muted: bool, replyMode: string, batchDelaySeconds: int, version: int)

  datatype Effective = Effective(muted: bool, replyMode: string, batchDelaySeconds: int)

  type Rows = map<string, Row>

  /** A complete snapshot, as the answer to the fetch of that sequence. */
  datatype Snapshot = Snapshot(rows: seq<Row>, sequence: int)

  function Rebuilt(rows: seq<Row>): Rows {
    if rows == [] then map[]
    else
      var before, row := Rebuilt(rows[..|rows| - 1]), Last(rows);
      if row.conversationId !in before || row.version >= before[row.conversationId].version
      then before[row.conversationId := row]
      else before
  }

  datatype Cache = Cache(rows: Rows, maxApplied: int)

  const EMPTY := Cache(map[], -1)

  function Apply(cache: Cache, snapshot: Snapshot): Cache {
    if snapshot.sequence <= cache.maxApplied then cache else Cache(Rebuilt(snapshot.rows), snapshot.sequence)
  }

  class GroupSettingsCache {
    var rows: Rows
    var maxAppliedSequence: int

    function State(): Cache
      reads this
    {
      Cache(rows, maxAppliedSequence)
    }

    constructor ()
      ensures State() == EMPTY
    {
      rows, maxAppliedSequence := map[], -1;
    }

    method ApplyFetched(fetched: seq<Row>, sequence: int)
      modifies this
      ensures State() == Apply(old(State()), Snapshot(fetched, sequence))
    {
      if sequence <= maxAppliedSequence {
        return;
      }
      var rebuilt: Rows := map[];
      var i := 0;
      while i < |fetched|
        invariant 0 <= i <= |fetched|
        invariant rebuilt == Rebuilt(fetched[..i])
      {
        assert fetched[..i + 1][..i] == fetched[..i];
        var row := fetched[i];
        if row.conversationId !in rebuilt || row.version >= rebuilt[row.conversationId].version {
          rebuilt := rebuilt[row.conversationId := row];
        }
        i := i + 1;
      }
      assert fetched[..i] == fetched;
      rows := rebuilt;
      maxAppliedSequence := sequence;
    }

    function EffectiveFor(chat: string, fallback: Effective): (e: Effective)
      reads this
    {
      if chat in rows then Effective(rows[chat].muted, rows[chat].replyMode, rows[chat].batchDelaySeconds) else fallback
    }
  }

  // --- What a snapshot rebuilds to -----------------------------------------------------------------

  /** The row at i has the highest version of its conversation, and no later row equals it. */
  predicate Wins(rows: seq<Row>, i: nat)
    requires i < |rows|
  {
    forall j :: 0 <= j < |rows| && rows[j].conversationId == rows[i].conversationId
      ==> (rows[j].version < rows[i].version || (rows[j].version == rows[i].version && j <= i))
  }

  /** A conversation has a row exactly if the snapshot mentions it, and it is the winning one. */
  lemma {:induction false} RebuiltHasWinners(rows: seq<Row>, chat: string)
    ensures chat in Rebuilt(rows) <==> exists i :: 0 <= i < |rows| && rows[i].conversationId == chat
    ensures chat in Rebuilt(rows) ==>
      exists i :: 0 <= i < |rows| && rows[i].conversationId == chat && Wins(rows, i) && Rebuilt(rows)[chat] == rows[i]
  {
    if rows != [] {
      var n := |rows| - 1;
      var before, row := rows[..n], rows[n];
      RebuiltHasWinners(before, chat);
      if chat in Rebuilt(before) {
        var i :|
          0 <= i < n && before[i].conversationId == chat && Wins(before, i) && Rebuilt(before)[chat] == before[i];
        assert rows[i].conversationId == chat;
        assert forall j :: 0 <= j < n ==> before[j] == rows[j];
        if row.conversationId == chat {
          assert Wins(rows, if row.version >= before[i].version then n else i);
        } else {
          assert Wins(rows, i);
        }
      } else if row.conversationId == chat {
        assert Wins(rows, n);
      }
    }
  }

  // --- Any completion order ------------------------------------------------------------------------

  function After(landed: seq<Snapshot>): Cache {
    if landed == [] then EMPTY else Apply(After(landed[..|landed| - 1]), Last(landed))
  }

  predicate Sequenced(landed: seq<Snapshot>) {
    && (forall i :: 0 <= i < |landed| ==> landed[i].sequence >= 0)
    && (forall i, j :: 0 <= i < j < |landed| ==> landed[i].sequence != landed[j].sequence)
  }

  predicate Newest(landed: seq<Snapshot>, s: Snapshot) {
    s in landed && forall t :: t in landed ==> t.sequence <= s.sequence
  }

  function CacheOf(s: Snapshot): Cache {
    Cache(Rebuilt(s.rows), s.sequence)
  }

  lemma FirstLanded(s: Snapshot)
    requires s.sequence >= 0
    ensures Apply(EMPTY, s) == CacheOf(s)
  {
  }

  lemma SequencedBefore(landed: seq<Snapshot>)
    requires Sequenced(landed) && landed != []
    ensures Sequenced(landed[..|landed| - 1]) && Last(landed).sequence >= 0
  {
  }

  /** The cache is the rebuilt snapshot with the greatest sequence, in whatever order they landed. */
  lemma {:induction false} CacheIsNewest(landed: seq<Snapshot>) returns (s: Snapshot)
    requires Sequenced(landed) && landed != []
    ensures Newest(landed, s) && After(landed) == CacheOf(s)
  {
    var before, last := landed[..|landed| - 1], Last(landed);
    assert landed == before + [last];
    SequencedBefore(landed);
    if before == [] {
      s := last;
      FirstLanded(last);
    } else {
      var older := CacheIsNewest(before);
      s := if last.sequence > older.sequence then last else older;
      NewestSnoc(before, last, older, s);
    }
  }

  lemma NewestSnoc(before: seq<Snapshot>, last: Snapshot, older: Snapshot, s: Snapshot)
    requires Newest(before, older) && s == if last.sequence > older.sequence then last else older
    ensures Newest(before + [last], s) && Apply(CacheOf(older), last) == CacheOf(s)
  {
    forall t | t in before + [last]
      ensures t.sequence <= s.sequence
    {
      assert t in before || t == last;
    }
  }

  lemma SameSequence(landed: seq<Snapshot>, s: Snapshot, t: Snapshot)
    requires Sequenced(landed) && s in landed && t in landed && s.sequence == t.sequence
    ensures s == t
  {
    var i :| 0 <= i < |landed| && landed[i] == s;
    var j :| 0 <= j < |landed| && landed[j] == t;
    assert i == j;
  }

  /** The same snapshots landing in two orders leave the same cache. */
  lemma OrderDoesNotMatter(one: seq<Snapshot>, other: seq<Snapshot>)
    requires Sequenced(one) && Sequenced(other) && forall s :: s in one <==> s in other
    ensures After(one) == After(other)
  {
    EmptyOrMember(one);
    EmptyOrMember(other);
    if one != [] {
      var s := CacheIsNewest(one);
      var t := CacheIsNewest(other);
      SameSequence(one, s, t);
    }
  }
}
