/** The participant list of the meeting room (src/pages/MeetingRoom.jsx): the records shown as
    video tiles, and the functional updates the room applies to the list (`setParticipants(prev => …)`):
    add-or-replace, remove, a remote state change, and the rebuild from the status API. */
module Roster {
  import opened Text
  import opened Dynamic
  import opened PeerIdentity

  /** A handle on a remote media stream. */
  type StreamId = nat

  /** A participant tile (`labelText` is the source's `label`). A field the source leaves out of a record (`isMuted` and `isRecording`
      of the records built from an offer, a track or the status API) is `false`. */
  datatype Participant = Participant(
    id: string,
    labelText: string,
    email: string,
    stream: Option<StreamId>,
    cameraOn: bool,
    role: Value,
    isHost: bool,
    isMuted: bool,
    isRecording: bool)

  /** `safeId(item.email || item.id)`: the key the list is indexed by. */
  function KeyOf(p: Participant): (k: Key)
    ensures k == Lower(Trim(if p.email != [] then p.email else p.id))
  {
    SafeIdIsLowerTrim(if p.email != [] then p.email else p.id);
    SafeId(if p.email != [] then p.email else p.id)
  }

  /** The keys of a list, in order. */
  function Keys(ps: seq<Participant>): (ks: seq<Key>)
    ensures |ks| == |ps|
  {
    seq(|ps|, i requires 0 <= i < |ps| => KeyOf(ps[i]))
  }

  /** No two records share a key. */
  predicate DistinctKeys(ps: seq<Participant>) {
    forall i, j | 0 <= i < j < |ps| :: KeyOf(ps[i]) != KeyOf(ps[j])
  }

  /** The list invariant the room keeps: distinct keys, none empty and none the local user's. */
  predicate WellFormed(ps: seq<Participant>, selfKey: Key) {
    && DistinctKeys(ps)
    && forall i | 0 <= i < |ps| :: KeyOf(ps[i]) != [] && KeyOf(ps[i]) != selfKey
  }

  /** `prev.filter((item) => safeId(item.email || item.id) !== key)`. */
  function WithoutKey(ps: seq<Participant>, key: Key): (r: seq<Participant>)
    ensures forall p :: p in r <==> p in ps && KeyOf(p) != key
    ensures |r| <= |ps|
  {
    if ps == [] then []
    else (if KeyOf(ps[0]) == key then [] else [ps[0]]) + WithoutKey(ps[1..], key)
  }

  /** Filtering keeps a list with distinct keys distinct, so removal preserves the invariant. */
  lemma {:induction false} WithoutKeyDistinct(ps: seq<Participant>, key: Key)
    requires DistinctKeys(ps)
    ensures DistinctKeys(WithoutKey(ps, key))
  {
    if ps != [] {
      var rest := WithoutKey(ps[1..], key);
      assert DistinctKeys(ps[1..]);
      WithoutKeyDistinct(ps[1..], key);
      if KeyOf(ps[0]) != key {
        var r := [ps[0]] + rest;
        forall j | 0 < j < |r|
          ensures KeyOf(r[0]) != KeyOf(r[j])
        {
          assert r[j] in ps[1..];
          var m :| 0 <= m < |ps[1..]| && ps[1..][m] == r[j];
          assert ps[m + 1] == r[j];
        }
        assert WithoutKey(ps, key) == r;
      } else {
        assert WithoutKey(ps, key) == rest;
      }
    }
  }

  /** Filtering by a key no record has leaves the list as it is. */
  lemma {:induction false} WithoutKeyAbsent(ps: seq<Participant>, key: Key)
    requires forall i | 0 <= i < |ps| :: KeyOf(ps[i]) != key
    ensures WithoutKey(ps, key) == ps
  {
    if ps != [] {
      WithoutKeyAbsent(ps[1..], key);
      assert ps == [ps[0]] + ps[1..];
    }
  }

  lemma WithoutKeyWellFormed(ps: seq<Participant>, key: Key, selfKey: Key)
    requires WellFormed(ps, selfKey)
    ensures WellFormed(WithoutKey(ps, key), selfKey)
  {
    WithoutKeyDistinct(ps, key);
    var r := WithoutKey(ps, key);
    forall i | 0 <= i < |r|
      ensures KeyOf(r[i]) != [] && KeyOf(r[i]) != selfKey
    {
      assert r[i] in ps;
    }
  }

  /** `[...filtered, nextParticipant]`: any record with the same key is replaced by the new one
      at the end of the list. */
  function Upsert(ps: seq<Participant>, p: Participant): (r: seq<Participant>)
    ensures |r| > 0 && r[|r| - 1] == p
    ensures forall q :: q in r <==> q == p || (q in ps && KeyOf(q) != KeyOf(p))
  {
    WithoutKey(ps, KeyOf(p)) + [p]
  }

  /** Adding a record for a new or a known key keeps the list well formed, and afterwards the
      key has exactly one record. */
  lemma UpsertWellFormed(ps: seq<Participant>, p: Participant, selfKey: Key)
    requires WellFormed(ps, selfKey) && KeyOf(p) != [] && KeyOf(p) != selfKey
    ensures WellFormed(Upsert(ps, p), selfKey)
    ensures forall i | 0 <= i < |Upsert(ps, p)| - 1 :: KeyOf(Upsert(ps, p)[i]) != KeyOf(p)
  {
    var f := WithoutKey(ps, KeyOf(p));
    WithoutKeyWellFormed(ps, KeyOf(p), selfKey);
    var r := f + [p];
    forall i | 0 <= i < |f|
      ensures KeyOf(r[i]) != KeyOf(p)
    {
      assert f[i] in f;
    }
  }

  /** A remote `state` message: the record whose key is the sender's takes the sender's mute,
      camera and record flags (`!!next.mute`, `next.camera !== false`, `!!next.record`). */
  function ApplyState(ps: seq<Participant>, key: Key, next: Value): (r: seq<Participant>)
    ensures |r| == |ps|
  {
    seq(|ps|, i requires 0 <= i < |ps| =>
      if KeyOf(ps[i]) != key then ps[i]
      else ps[i].(isMuted := Truthy(Get(next, "mute")),
                  cameraOn := NotFalse(Get(next, "camera")),
                  isRecording := Truthy(Get(next, "record"))))
  }

  /** A state message changes only the sender's record, and only its three flags: keys, order,
      streams and every other record stay as they were. A missing `camera` flag means on. */
  lemma ApplyStateEffect(ps: seq<Participant>, key: Key, next: Value, i: nat)
    requires i < |ps|
    ensures var r := ApplyState(ps, key, next);
            && KeyOf(r[i]) == KeyOf(ps[i])
            && r[i].stream == ps[i].stream
            && (KeyOf(ps[i]) != key ==> r[i] == ps[i])
            && (KeyOf(ps[i]) == key ==>
                  r[i].isMuted == Truthy(Get(next, "mute"))
                  && r[i].cameraOn == (Get(next, "camera") != Bool(false))
                  && r[i].isRecording == Truthy(Get(next, "record")))
  {
  }

  lemma ApplyStateWellFormed(ps: seq<Participant>, key: Key, next: Value, selfKey: Key)
    requires WellFormed(ps, selfKey)
    ensures WellFormed(ApplyState(ps, key, next), selfKey)
  {
    var r := ApplyState(ps, key, next);
    assert forall i | 0 <= i < |r| :: KeyOf(r[i]) == KeyOf(ps[i]);
  }

  // ---------------------------------------------------------------------------------------
  // The rebuild from the status API (`syncMeetingStatus`).

  /** What one element of `data.participants` contributes: reading a truthy non-string e-mail
      throws; a blank e-mail is skipped; otherwise a record under the normalised e-mail. */
  datatype Entry = Throws | Blank | Record(key: Key, record: Participant)

  /** The record built for one API element. The host flag holds when the element says so or
      when the meeting's host id normalises to the same key. */
  function ApiEntry(item: Value, hostId: string): (e: Entry)
    ensures e.Record? ==> KeyOf(e.record) == e.key && e.key != [] && e.record.stream.None?
    ensures e.Record? ==> e.record.id == e.record.email
  {
    match StringOr(Or(Get(item, "userEmail"), Get(item, "email")), "")
    case None => Throws
    case Some(raw) =>
      var email := Trim(raw);
      if email == [] then Blank
      else
        var key := SafeId(email);
        assert key != [] by { SafeIdEmpty(email); TrimByIdempotent(raw, IsJsSpace); }
        Record(key, Participant(email, email, email, None, true,
                                Or(Get(item, "role"), Str("PARTICIPANT")),
                                Truthy(Get(item, "isHost")) || (hostId != [] && SafeId(hostId) == key),
                                false, false))
  }

  /** The element contributes a record under `key`. */
  predicate HasKey(item: Value, hostId: string, key: Key) {
    ApiEntry(item, hostId).Record? && ApiEntry(item, hostId).key == key
  }

  /** The deduplicated list (`deduped`, an insertion-ordered map): elements in API order, the
      first record for a key winning, the local user excluded; `None` when an element throws. */
  function Dedupe(items: seq<Value>, selfKey: Key, hostId: string): (r: Option<seq<Participant>>)
    ensures r.Some? ==> |r.value| <= |items|
    ensures r.Some? ==> forall q | q in r.value :: KeyOf(q) != selfKey && KeyOf(q) != []
  {
    if items == [] then Some([])
    else
      match Dedupe(items[..|items| - 1], selfKey, hostId)
      case None => None
      case Some(acc) =>
        match ApiEntry(items[|items| - 1], hostId)
        case Throws => None
        case Blank => Some(acc)
        case Record(key, p) =>
          if key == selfKey || key in Keys(acc) then Some(acc) else Some(acc + [p])
  }

  /** The `forEach` over `data.participants` that fills `deduped`, with the key set of the map
      kept beside the list. */
  method BuildDeduped(items: seq<Value>, selfKey: Key, hostId: string) returns (r: Option<seq<Participant>>)
    ensures r == Dedupe(items, selfKey, hostId)
  {
    var deduped: seq<Participant> := [];
    var seen: set<Key> := {};
    var i := 0;
    while i < |items|
      invariant 0 <= i <= |items|
      invariant Dedupe(items[..i], selfKey, hostId) == Some(deduped)
      invariant seen == set k | k in Keys(deduped)
    {
      assert items[..i + 1][..i] == items[..i];
      match ApiEntry(items[i], hostId) {
        case Throws =>
          DedupeAbortsFromPrefix(items, i + 1, selfKey, hostId);
          return None;
        case Blank =>
        case Record(key, p) =>
          if key != selfKey && key !in seen {
            assert Keys(deduped + [p]) == Keys(deduped) + [key];
            deduped := deduped + [p];
            seen := seen + {key};
          }
      }
      i := i + 1;
    }
    assert items[..i] == items;
    r := Some(deduped);
  }

  /** A throwing element aborts the whole rebuild, wherever it is. */
  lemma {:induction false} DedupeAbortsFromPrefix(items: seq<Value>, n: nat, selfKey: Key, hostId: string)
    requires n <= |items| && Dedupe(items[..n], selfKey, hostId).None?
    ensures Dedupe(items, selfKey, hostId).None?
    decreases |items| - n
  {
    if n < |items| {
      assert items[..n + 1][..n] == items[..n];
      DedupeAbortsFromPrefix(items, n + 1, selfKey, hostId);
    } else {
      assert items[..n] == items;
    }
  }

  /** The deduplicated list is well formed. */
  lemma {:induction false} DedupeWellFormed(items: seq<Value>, selfKey: Key, hostId: string)
    requires Dedupe(items, selfKey, hostId).Some?
    ensures WellFormed(Dedupe(items, selfKey, hostId).value, selfKey)
  {
    if items != [] {
      var init := items[..|items| - 1];
      DedupeWellFormed(init, selfKey, hostId);
      var acc := Dedupe(init, selfKey, hostId).value;
      var e := ApiEntry(items[|items| - 1], hostId);
      if e.Record? && e.key != selfKey && e.key !in Keys(acc) {
        var r := acc + [e.record];
        forall i | 0 <= i < |acc|
          ensures KeyOf(r[i]) != KeyOf(e.record)
        {
          assert Keys(acc)[i] == KeyOf(acc[i]);
        }
      }
    }
  }

  /** Every deduplicated record is a fresh tile for an e-mail: no stream yet, and its id is
      its e-mail. */
  lemma {:induction false} DedupeFresh(items: seq<Value>, selfKey: Key, hostId: string)
    requires Dedupe(items, selfKey, hostId).Some?
    ensures var ps := Dedupe(items, selfKey, hostId).value;
            forall i | 0 <= i < |ps| :: ps[i].stream.None? && ps[i].id == ps[i].email
  {
    if items != [] {
      DedupeFresh(items[..|items| - 1], selfKey, hostId);
    }
  }

  /** `idx` names, for each record of `ps`, the element of `items` it comes from: in increasing
      order, each the first element with that key, and the record is the one that element builds. */
  ghost predicate Origins(items: seq<Value>, hostId: string, ps: seq<Participant>, idx: seq<nat>) {
    && |idx| == |ps|
    && (forall j | 0 <= j < |ps| :: idx[j] < |items| && ApiEntry(items[idx[j]], hostId) == Record(KeyOf(ps[j]), ps[j]))
    && (forall j, m | 0 <= j < |ps| && 0 <= m < idx[j] :: !HasKey(items[m], hostId, KeyOf(ps[j])))
    && (forall j1, j2 | 0 <= j1 < j2 < |ps| :: idx[j1] < idx[j2])
  }

  /** Where each deduplicated record comes from: an index into the API list for each record,
      strictly increasing (API order), each the FIRST element with that key (first wins), and
      the record is the one that element builds. */
  lemma DedupeOrigins(items: seq<Value>, selfKey: Key, hostId: string) returns (idx: seq<nat>)
    requires Dedupe(items, selfKey, hostId).Some?
    ensures var ps := Dedupe(items, selfKey, hostId).value;
            && |idx| == |ps|
            && (forall j | 0 <= j < |ps| :: idx[j] < |items| && ApiEntry(items[idx[j]], hostId) == Record(KeyOf(ps[j]), ps[j]))
            && (forall j, m | 0 <= j < |ps| && 0 <= m < idx[j] :: !HasKey(items[m], hostId, KeyOf(ps[j])))
            && (forall j1, j2 | 0 <= j1 < j2 < |ps| :: idx[j1] < idx[j2])
  {
    idx := OriginsOf(items, selfKey, hostId);
  }

  lemma {:induction false} OriginsOf(items: seq<Value>, selfKey: Key, hostId: string) returns (idx: seq<nat>)
    requires Dedupe(items, selfKey, hostId).Some?
    ensures Origins(items, hostId, Dedupe(items, selfKey, hostId).value, idx)
  {
    if items == [] {
      idx := [];
    } else {
      var init := items[..|items| - 1];
      var idx0 := OriginsOf(init, selfKey, hostId);
      var acc := Dedupe(init, selfKey, hostId).value;
      var e := ApiEntry(items[|items| - 1], hostId);
      if e.Record? && e.key != selfKey && e.key !in Keys(acc) {
        idx := OriginsAdd(items, selfKey, hostId, idx0);
      } else {
        idx := idx0;
        OriginsExtend(init, items, hostId, acc, idx0);
      }
    }
  }

  /** Origins found in a prefix of the list stay valid in the whole list. */
  lemma OriginsExtend(init: seq<Value>, items: seq<Value>, hostId: string, ps: seq<Participant>, idx: seq<nat>)
    requires init <= items && Origins(init, hostId, ps, idx)
    ensures Origins(items, hostId, ps, idx)
  {
    forall j | 0 <= j < |ps|
      ensures idx[j] < |items| && ApiEntry(items[idx[j]], hostId) == Record(KeyOf(ps[j]), ps[j])
    {
      assert items[idx[j]] == init[idx[j]];
    }
    forall j, m | 0 <= j < |ps| && 0 <= m < idx[j]
      ensures !HasKey(items[m], hostId, KeyOf(ps[j]))
    {
      assert items[m] == init[m];
    }
  }

  /** A record appended by the last element has that element as its origin. */
  lemma OriginsAdd(items: seq<Value>, selfKey: Key, hostId: string, idx0: seq<nat>) returns (idx: seq<nat>)
    requires items != []
    requires var init := items[..|items| - 1];
             && Dedupe(init, selfKey, hostId).Some?
             && Origins(init, hostId, Dedupe(init, selfKey, hostId).value, idx0)
    requires var e := ApiEntry(items[|items| - 1], hostId);
             e.Record? && e.key != selfKey && e.key !in Keys(Dedupe(items[..|items| - 1], selfKey, hostId).value)
    ensures Dedupe(items, selfKey, hostId).Some?
    ensures Origins(items, hostId, Dedupe(items, selfKey, hostId).value, idx)
  {
    var init := items[..|items| - 1];
    var n := |items| - 1;
    var acc := Dedupe(init, selfKey, hostId).value;
    var e := ApiEntry(items[n], hostId);
    OriginsExtend(init, items, hostId, acc, idx0);
    idx := idx0 + [n];
    var ps := acc + [e.record];
    assert Dedupe(items, selfKey, hostId) == Some(ps);
    forall m | 0 <= m < n
      ensures !HasKey(items[m], hostId, e.key)
    {
      assert items[m] == init[m];
      if HasKey(init[m], hostId, e.key) {
        DedupeComplete(init, selfKey, hostId, m);
        assert false;
      }
    }
    assert forall j | 0 <= j < |acc| :: ps[j] == acc[j];
  }

  /** Every element with a key other than the local user's is represented in the deduplicated list. */
  lemma {:induction false} DedupeComplete(items: seq<Value>, selfKey: Key, hostId: string, m: nat)
    requires Dedupe(items, selfKey, hostId).Some?
    requires m < |items| && ApiEntry(items[m], hostId).Record? && ApiEntry(items[m], hostId).key != selfKey
    ensures ApiEntry(items[m], hostId).key in Keys(Dedupe(items, selfKey, hostId).value)
  {
    var init := items[..|items| - 1];
    var acc := Dedupe(init, selfKey, hostId).value;
    var e := ApiEntry(items[|items| - 1], hostId);
    var ps := Dedupe(items, selfKey, hostId).value;
    if m < |items| - 1 {
      assert items[m] == init[m];
      DedupeComplete(init, selfKey, hostId, m);
      var k :| 0 <= k < |acc| && Keys(acc)[k] == ApiEntry(items[m], hostId).key;
      assert Keys(ps)[k] == Keys(acc)[k];
    } else if e.key !in Keys(acc) {
      assert Keys(ps)[|acc|] == e.key;
    }
  }

  /** `new Map(prev.map(...)).get(key)`: building a map from the list keeps the LAST record
      per key. */
  function LastWithKey(ps: seq<Participant>, key: Key): (r: Option<Participant>)
    ensures r.Some? ==> r.value in ps && KeyOf(r.value) == key
    ensures r.None? <==> key !in Keys(ps)
  {
    if ps == [] then None
    else if KeyOf(ps[|ps| - 1]) == key then
      assert Keys(ps)[|ps| - 1] == key;
      Some(ps[|ps| - 1])
    else
      assert Keys(ps) == Keys(ps[..|ps| - 1]) + [KeyOf(ps[|ps| - 1])];
      LastWithKey(ps[..|ps| - 1], key)
  }

  /** In a list with distinct keys, the record found for a key is the one with that key. */
  lemma LastWithKeyUnique(ps: seq<Participant>, i: nat)
    requires DistinctKeys(ps) && i < |ps|
    ensures LastWithKey(ps, KeyOf(ps[i])) == Some(ps[i])
  {
    var r := LastWithKey(ps, KeyOf(ps[i]));
    assert Keys(ps)[i] == KeyOf(ps[i]);
    var k :| 0 <= k < |ps| && ps[k] == r.value;
  }

  /** One merged record: the incoming one, carrying over the stream of an existing record with
      the same key (`{ ...incoming, stream: existing.stream || null }`). */
  function MergeOne(prev: seq<Participant>, incoming: Participant): (m: Participant)
    ensures m.(stream := incoming.stream) == incoming
    ensures KeyOf(incoming) !in Keys(prev) ==> m == incoming
    ensures KeyOf(incoming) in Keys(prev) ==>
              exists q | q in prev && KeyOf(q) == KeyOf(incoming) :: m.stream == q.stream
  {
    match LastWithKey(prev, KeyOf(incoming))
    case None => incoming
    case Some(existing) => incoming.(stream := existing.stream)
  }

  /** The merge loop: one merged record per deduplicated record, in order. */
  method Merge(prev: seq<Participant>, deduped: seq<Participant>) returns (merged: seq<Participant>)
    ensures |merged| == |deduped|
    ensures forall i | 0 <= i < |deduped| :: merged[i] == MergeOne(prev, deduped[i])
  {
    merged := [];
    var i := 0;
    while i < |deduped|
      invariant 0 <= i <= |deduped| && |merged| == i
      invariant forall k | 0 <= k < i :: merged[k] == MergeOne(prev, deduped[k])
    {
      merged := merged + [MergeOne(prev, deduped[i])];
      i := i + 1;
    }
  }

  /** The merged list has exactly the deduplicated keys in their order, each record is the
      incoming one except for its stream, and a key already shown keeps its stream (none
      otherwise); it is therefore well formed when the deduplicated list is. */
  lemma MergeEffect(prev: seq<Participant>, deduped: seq<Participant>, merged: seq<Participant>, selfKey: Key)
    requires DistinctKeys(prev) && WellFormed(deduped, selfKey)
    requires forall i | 0 <= i < |deduped| :: deduped[i].stream.None?
    requires |merged| == |deduped| && forall i | 0 <= i < |deduped| :: merged[i] == MergeOne(prev, deduped[i])
    ensures Keys(merged) == Keys(deduped)
    ensures WellFormed(merged, selfKey)
    ensures forall i | 0 <= i < |merged| :: merged[i].(stream := None) == deduped[i]
    ensures forall i, j | 0 <= i < |merged| && 0 <= j < |prev| && KeyOf(prev[j]) == KeyOf(merged[i]) ::
              merged[i].stream == prev[j].stream
    ensures forall i | 0 <= i < |merged| && KeyOf(merged[i]) !in Keys(prev) :: merged[i].stream.None?
  {
    forall i, j | 0 <= i < |merged| && 0 <= j < |prev| && KeyOf(prev[j]) == KeyOf(merged[i])
      ensures merged[i].stream == prev[j].stream
    {
      LastWithKeyUnique(prev, j);
    }
    forall i | 0 <= i < |merged| && KeyOf(merged[i]) !in Keys(prev)
      ensures merged[i].stream.None?
    {
      assert KeyOf(merged[i]) == KeyOf(deduped[i]);
    }
    assert forall i | 0 <= i < |merged| :: Keys(merged)[i] == Keys(deduped)[i];
  }
}
