/** The selected mailbox of an IMAP session and the store behind it
    (internal/imap/server.go:64-73, 190-370 and 425-439). */
module ImapSession {
  import opened Strings
  import opened Aliases
  import opened MailStore

  // ----- the session's view of its mailbox -----

  datatype Cached = Cached(id: string, receivedAt: int, seen: bool, deleted: bool)

  ghost predicate DistinctIds(v: seq<Cached>) {
    forall i, j :: 0 <= i < j < |v| ==> v[i].id != v[j].id
  }

  ghost predicate OldestFirst(v: seq<Cached>) {
    forall i, j :: 0 <= i < j < |v| ==> v[i].receivedAt <= v[j].receivedAt
  }

  /** Flags are never ahead of the table, except where a write of the flag failed. */
  ghost predicate Coherent(v: seq<Cached>, m: map<string, Row>, lost: set<string>) {
    forall i :: 0 <= i < |v| && v[i].id in m && v[i].id !in lost ==>
      (v[i].seen ==> m[v[i].id].copy.seen) && (v[i].deleted ==> m[v[i].id].deleted)
  }

  /** The session invariant, on values. */
  ghost predicate Good(v: seq<Cached>, m: map<string, Row>, issued: set<string>, lost: set<string>, marked: set<string>)
  {
    && m.Keys <= issued
    && DistinctIds(v) && OldestFirst(v) && (forall i :: 0 <= i < |v| ==> v[i].id in issued)
    && Coherent(v, m, lost)
    && DeletedIds(v) == marked
  }

  function DeletedIds(v: seq<Cached>): set<string> {
    set i | 0 <= i < |v| && v[i].deleted :: v[i].id
  }

  /** The ids of the messages marked deleted, in order. */
  function DeletedList(v: seq<Cached>): seq<string> {
    if v == [] then []
    else
      var before, c := DeletedList(v[..|v| - 1]), v[|v| - 1];
      if c.deleted then before + [c.id] else before
  }

  lemma {:induction false} DeletedListed(v: seq<Cached>)
    ensures forall id :: id in DeletedList(v) <==> id in DeletedIds(v)
  {
    if v != [] {
      DeletedListed(v[..|v| - 1]);
      DeletedNext(v, |v| - 1);
      assert v[..|v| - 1 + 1] == v;
    }
  }

  // ----- STORE -----

  /** `v` after STORE on some positions. */
  function Flagged(v: seq<Cached>, positions: seq<int>, seen: bool, deleted: bool): seq<Cached> {
    seq(|v|, i requires 0 <= i < |v| =>
      if i in positions then v[i].(seen := v[i].seen || seen, deleted := v[i].deleted || deleted) else v[i])
  }

  /** +FLAGS, -FLAGS and FLAGS. */
  datatype Action = Add | Remove | Replace

  /** A STORE of \Seen, \Deleted or both, and the numbers of the positions for which writing the one
      or the other to the table fails. */
  datatype StoreRequest = StoreRequest(positions: seq<int>, action: Action, seen: bool, deleted: bool,
                                       seenFails: set<nat>, deletedFails: set<nat>)

  /** What the three actions mean (section 6.4.6 of RFC 3501). */
  function Wanted(v: seq<Cached>, positions: seq<int>, action: Action, seen: bool, deleted: bool): seq<Cached> {
    seq(|v|, i requires 0 <= i < |v| =>
      if i !in positions then v[i]
      else match action
           case Add => v[i].(seen := v[i].seen || seen, deleted := v[i].deleted || deleted)
           case Remove => v[i].(seen := v[i].seen && !seen, deleted := v[i].deleted && !deleted)
           case Replace => v[i].(seen := seen, deleted := deleted))
  }

  /** The sign of the action is not looked at.  That goes well for +FLAGS; for -FLAGS exactly when it
      names no flag or no message; for FLAGS exactly when no message addressed has a flag that is not
      named. */
  lemma SignIgnored(v: seq<Cached>, positions: seq<int>, action: Action, seen: bool, deleted: bool)
    ensures Flagged(v, positions, seen, deleted) == Wanted(v, positions, action, seen, deleted) <==>
            match action
            case Add => true
            case Remove => (!seen && !deleted) || forall i :: 0 <= i < |v| ==> i !in positions
            case Replace =>
              forall i :: 0 <= i < |v| && i in positions ==> (v[i].seen ==> seen) && (v[i].deleted ==> deleted)
  {
    var f, w := Flagged(v, positions, seen, deleted), Wanted(v, positions, action, seen, deleted);
    if f == w {
      forall i | 0 <= i < |v| && i in positions ensures f[i] == w[i] {}
    } else {
      assert |f| == |w|;
    }
  }

  predicate InRange(v: seq<Cached>, p: int) { 0 <= p < |v| }

  /** The table after the first `n` positions of a STORE. */
  function StoredRows(m: map<string, Row>, v: seq<Cached>, q: StoreRequest, n: nat): map<string, Row>
    requires n <= |q.positions|
  {
    if n == 0 then m
    else
      var k, p, before := n - 1, q.positions[n - 1], StoredRows(m, v, q, n - 1);
      if InRange(v, p) then Raise(before, v[p].id, q.seen && k !in q.seenFails, q.deleted && k !in q.deletedFails)
      else before
  }

  /** The messages for which a write failed. */
  function FailedIds(v: seq<Cached>, q: StoreRequest, n: nat): set<string>
    requires n <= |q.positions|
  {
    if n == 0 then {}
    else
      var k, p, before := n - 1, q.positions[n - 1], FailedIds(v, q, n - 1);
      if InRange(v, p) && ((q.seen && k in q.seenFails) || (q.deleted && k in q.deletedFails)) then before + {v[p].id}
      else before
  }

  /** The messages addressed. */
  function Targets(v: seq<Cached>, positions: seq<int>, n: nat): set<string>
    requires n <= |positions|
  {
    if n == 0 then {}
    else
      var p, before := positions[n - 1], Targets(v, positions, n - 1);
      if InRange(v, p) then before + {v[p].id} else before
  }

  /** What a STORE changes: the session's list, the table, and what the proof remembers. */
  datatype StoreState = StoreState(v: seq<Cached>, m: map<string, Row>, lost: set<string>, marked: set<string>)

  /** After the first `n` positions. */
  ghost function Reached(s: StoreState, q: StoreRequest, n: nat): StoreState
    requires n <= |q.positions|
  {
    StoreState(Flagged(s.v, q.positions[..n], q.seen, q.deleted), StoredRows(s.m, s.v, q, n),
               s.lost + FailedIds(s.v, q, n),
               s.marked + if q.deleted then Targets(s.v, q.positions, n) else {})
  }

  /** After one more position: nothing when it lies outside the list. */
  ghost function Advance(s: StoreState, p: int, q: StoreRequest, k: nat): StoreState {
    if !InRange(s.v, p) then s
    else
      var id, seenWorks, deletedWorks := s.v[p].id, k !in q.seenFails, k !in q.deletedFails;
      StoreState(Flagged(s.v, [p], q.seen, q.deleted), Raise(s.m, id, q.seen && seenWorks, q.deleted && deletedWorks),
                 s.lost + (if (q.seen && !seenWorks) || (q.deleted && !deletedWorks) then {id} else {}),
                 s.marked + if q.deleted then {id} else {})
  }

  lemma ReachedNext(s: StoreState, q: StoreRequest, k: nat)
    requires k < |q.positions|
    ensures Reached(s, q, k + 1) == Advance(Reached(s, q, k), q.positions[k], q, k)
  {
    var t, p := Reached(s, q, k), q.positions[k];
    TakeNext(q.positions, k);
    FlaggedNext(s.v, q.positions[..k], p, q.seen, q.deleted);
    if !InRange(s.v, p) {
      FlaggedOutside(t.v, p, q.seen, q.deleted);
    } else {
      assert t.v[p].id == s.v[p].id;
    }
  }

  predicate Hits(v: seq<Cached>, positions: seq<int>, k: nat, id: string)
    requires k < |positions|
  {
    InRange(v, positions[k]) && v[positions[k]].id == id
  }

  ghost predicate SeenBy(v: seq<Cached>, q: StoreRequest, n: nat, id: string)
    requires n <= |q.positions|
  {
    q.seen && exists k: nat :: k < n && Hits(v, q.positions, k, id) && k !in q.seenFails
  }

  ghost predicate DeletedBy(v: seq<Cached>, q: StoreRequest, n: nat, id: string)
    requires n <= |q.positions|
  {
    q.deleted && exists k: nat :: k < n && Hits(v, q.positions, k, id) && k !in q.deletedFails
  }

  /** Exactly the flags named are raised, exactly on the messages addressed whose writes work, and
      nothing else changes. */
  lemma {:induction false} StoredRowsMeaning(m: map<string, Row>, v: seq<Cached>, q: StoreRequest, n: nat)
    requires n <= |q.positions|
    ensures StoredRows(m, v, q, n).Keys == m.Keys
    ensures forall id :: id in m ==>
              StoredRows(m, v, q, n)[id] == RaisedRow(m[id], SeenBy(v, q, n, id), DeletedBy(v, q, n, id))
    ensures forall id :: id in m ==>
              var r := StoredRows(m, v, q, n)[id];
              && r == m[id].(copy := m[id].copy.(seen := r.copy.seen), deleted := r.deleted)
              && (r.copy.seen <==> m[id].copy.seen || (q.seen && exists k: nat ::
                    k < n && 0 <= q.positions[k] < |v| && v[q.positions[k]].id == id && k !in q.seenFails))
              && (r.deleted <==> m[id].deleted || (q.deleted && exists k: nat ::
                    k < n && 0 <= q.positions[k] < |v| && v[q.positions[k]].id == id && k !in q.deletedFails))
  {
    if n > 0 {
      var k := n - 1;
      StoredRowsMeaning(m, v, q, k);
      forall id
        ensures SeenBy(v, q, n, id) <==>
                SeenBy(v, q, k, id) || (q.seen && Hits(v, q.positions, k, id) && k !in q.seenFails)
        ensures DeletedBy(v, q, n, id) <==>
                DeletedBy(v, q, k, id) || (q.deleted && Hits(v, q.positions, k, id) && k !in q.deletedFails)
      {
      }
    }
  }

  /** A STORE leaves the table alone exactly when every flag it writes was there. */
  lemma StoreUnchanged(m: map<string, Row>, v: seq<Cached>, q: StoreRequest)
    ensures StoredRows(m, v, q, |q.positions|) == m <==>
            forall k: nat :: k < |q.positions| && InRange(v, q.positions[k]) && v[q.positions[k]].id in m ==>
              (q.seen && k !in q.seenFails ==> m[v[q.positions[k]].id].copy.seen)
              && (q.deleted && k !in q.deletedFails ==> m[v[q.positions[k]].id].deleted)
  {
    var n := |q.positions|;
    StoredRowsMeaning(m, v, q, n);
    if StoredRows(m, v, q, n) == m {
      forall k: nat | k < n && InRange(v, q.positions[k]) && v[q.positions[k]].id in m
        ensures (q.seen && k !in q.seenFails ==> m[v[q.positions[k]].id].copy.seen)
                && (q.deleted && k !in q.deletedFails ==> m[v[q.positions[k]].id].deleted)
      {
        assert Hits(v, q.positions, k, v[q.positions[k]].id);
      }
    }
  }

  // ----- FETCH -----

  /** BODY[], BODY.PEEK[] and RFC822 are whole bodies. */
  datatype Item = Flags | Body(peek: bool) | Other

  /** A FETCH, and the pairs of a position's number and an item's number for which marking the message
      seen fails. */
  datatype FetchRequest = FetchRequest(positions: seq<int>, items: seq<Item>, fails: set<(nat, nat)>)

  /** One of the first `n` items marks the message at position number `k`. */
  ghost predicate Marks(q: FetchRequest, k: nat, n: nat)
    requires n <= |q.items|
  {
    exists j: nat :: j < n && q.items[j].Body? && (k, j) !in q.fails
  }

  ghost function FetchedRows(m: map<string, Row>, v: seq<Cached>, q: FetchRequest, n: nat): map<string, Row>
    requires n <= |q.positions|
  {
    if n == 0 then m
    else
      var p, before := q.positions[n - 1], FetchedRows(m, v, q, n - 1);
      if InRange(v, p) then Raise(before, v[p].id, Marks(q, n - 1, |q.items|), false) else before
  }

  ghost predicate FetchedBy(v: seq<Cached>, q: FetchRequest, n: nat, id: string)
    requires n <= |q.positions|
  {
    exists k: nat :: k < n && Hits(v, q.positions, k, id) && Marks(q, k, |q.items|)
  }

  /** Exactly the messages whose whole body is fetched - with PEEK or without - become seen in the table,
      where the write works, and nothing else changes. */
  lemma {:induction false} FetchedRowsMeaning(m: map<string, Row>, v: seq<Cached>, q: FetchRequest, n: nat)
    requires n <= |q.positions|
    ensures FetchedRows(m, v, q, n).Keys == m.Keys
    ensures forall id :: id in m ==> FetchedRows(m, v, q, n)[id] == RaisedRow(m[id], FetchedBy(v, q, n, id), false)
    ensures forall id :: id in m ==>
              var r := FetchedRows(m, v, q, n)[id];
              && r == m[id].(copy := m[id].copy.(seen := r.copy.seen))
              && (r.copy.seen <==> m[id].copy.seen || exists k: nat, j: nat ::
                    k < n && 0 <= q.positions[k] < |v| && v[q.positions[k]].id == id
                    && j < |q.items| && q.items[j].Body? && (k, j) !in q.fails)
  {
    if n > 0 {
      var k := n - 1;
      FetchedRowsMeaning(m, v, q, k);
      forall id
        ensures FetchedBy(v, q, n, id) <==>
                FetchedBy(v, q, k, id) || (Hits(v, q.positions, k, id) && Marks(q, k, |q.items|))
      {
      }
    }
  }

  /** A FETCH leaves the table alone - as one that only peeks should - exactly when every message whose
      whole body it fetches was seen before, or is gone, or cannot be written. */
  lemma FetchUnchanged(m: map<string, Row>, v: seq<Cached>, q: FetchRequest)
    ensures FetchedRows(m, v, q, |q.positions|) == m <==>
            forall k: nat :: k < |q.positions| && InRange(v, q.positions[k]) && Marks(q, k, |q.items|) ==>
              v[q.positions[k]].id in m ==> m[v[q.positions[k]].id].copy.seen
  {
    var n := |q.positions|;
    FetchedRowsMeaning(m, v, q, n);
    if FetchedRows(m, v, q, n) == m {
      forall k: nat | k < n && InRange(v, q.positions[k]) && Marks(q, k, |q.items|) && v[q.positions[k]].id in m
        ensures m[v[q.positions[k]].id].copy.seen
      {
        assert Hits(v, q.positions, k, v[q.positions[k]].id);
      }
    }
  }

  // ----- interference -----

  /** A row with flags raised, never lowered. */
  predicate Raised(r: Row, r': Row) {
    && r'.copy.mail == r.copy.mail && r'.copy.owner == r.copy.owner && r'.copy.folder == r.copy.folder
    && r'.receivedAt == r.receivedAt
    && (r.copy.seen ==> r'.copy.seen) && (r.deleted ==> r'.deleted)
  }

  /** What other sessions and deliveries may do meanwhile: remove rows, raise flags, and add
      rows under ids never issued before. */
  ghost predicate Evolves(m: map<string, Row>, issued: set<string>, m': map<string, Row>) {
    forall id :: id in m' ==> if id in m then Raised(m[id], m'[id]) else id !in issued
  }

  /** Interference cannot break a session. */
  lemma GoodEvolves(v: seq<Cached>, m: map<string, Row>, issued: set<string>, lost: set<string>, marked: set<string>,
                    m': map<string, Row>, issued': set<string>)
    requires Good(v, m, issued, lost, marked) && Evolves(m, issued, m') && issued <= issued' && m'.Keys <= issued'
    ensures Good(v, m', issued', lost, marked)
  {
  }

  lemma FlagOne(v: seq<Cached>, m: map<string, Row>, issued: set<string>, lost: set<string>, marked: set<string>,
                idx: nat, seen: bool, deleted: bool, m': map<string, Row>, failed: set<string>, w: seq<Cached>)
    requires Good(v, m, issued, lost, marked) && idx < |v| && w == Flagged(v, [idx], seen, deleted)
    requires m'.Keys == m.Keys && Evolves(m, issued, m')
    requires v[idx].id in m && v[idx].id !in failed ==>
               (seen ==> m'[v[idx].id].copy.seen) && (deleted ==> m'[v[idx].id].deleted)
    ensures Good(w, m', issued, lost + failed, marked + (if deleted then {v[idx].id} else {}))
  {
    assert w == v[idx := v[idx].(seen := v[idx].seen || seen, deleted := v[idx].deleted || deleted)];
    FlagDeleted(v, idx, w);
  }

  lemma FlagDeleted(v: seq<Cached>, idx: nat, w: seq<Cached>)
    requires idx < |v| && |w| == |v| && w[idx].id == v[idx].id && (v[idx].deleted ==> w[idx].deleted)
    requires forall i :: 0 <= i < |v| && i != idx ==> w[i] == v[i]
    ensures DeletedIds(w) == DeletedIds(v) + (if w[idx].deleted then {v[idx].id} else {})
  {
    forall id | id in DeletedIds(v) ensures id in DeletedIds(w) {
      var i :| 0 <= i < |v| && v[i].deleted && v[i].id == id;
      assert w[i].deleted && w[i].id == id;
    }
    forall id | id in DeletedIds(w) ensures id in DeletedIds(v) || id == v[idx].id {
      var i :| 0 <= i < |w| && w[i].deleted && w[i].id == id;
    }
    if w[idx].deleted {
      assert w[idx].id in DeletedIds(w);
    }
  }

  lemma DeletedNext(v: seq<Cached>, k: nat)
    requires k < |v|
    ensures DeletedIds(v[..k + 1]) == DeletedIds(v[..k]) + (if v[k].deleted then {v[k].id} else {})
    ensures DistinctIds(v) ==> v[k].id !in DeletedIds(v[..k])
  {
    var w, u := v[..k + 1], v[..k];
    forall id | id in DeletedIds(w) ensures id in DeletedIds(u) || (v[k].deleted && id == v[k].id) {
      var i :| 0 <= i < |w| && w[i].deleted && w[i].id == id;
      if i < k {
        assert u[i].deleted && u[i].id == id;
      }
    }
    forall id | id in DeletedIds(u) ensures id in DeletedIds(w) {
      var i :| 0 <= i < |u| && u[i].deleted && u[i].id == id;
      assert w[i].deleted && w[i].id == id;
    }
    if v[k].deleted {
      assert w[k].deleted && w[k].id in DeletedIds(w);
    }
  }

  /** After a SELECT that ran to its end, the list is the folder's undeleted messages, each
      once, oldest first, with the table's flags. */
  ghost predicate Snapshot(v: seq<Cached>, m: map<string, Row>, owner: Address, folder: string) {
    && DistinctIds(v) && OldestFirst(v)
    && (forall i :: 0 <= i < |v| ==>
          v[i].id in m && InFolder(m[v[i].id], owner, folder) && v[i] == CachedRow(v[i].id, m[v[i].id]))
    && (forall id :: id in m && InFolder(m[id], owner, folder) ==> exists i :: 0 <= i < |v| && v[i].id == id)
  }

  /** The list, spelled out: undeleted messages of this owner and folder, all of them, oldest first, with their dates
      and flags. */
  ghost predicate Shows(v: seq<Cached>, m: map<string, Row>, owner: Address, folder: string) {
    && (forall i, j :: 0 <= i < j < |v| ==> v[i].id != v[j].id && v[i].receivedAt <= v[j].receivedAt)
    && (forall i :: 0 <= i < |v| ==>
          v[i].id in m && m[v[i].id].copy.owner == owner && m[v[i].id].copy.folder == folder && !m[v[i].id].deleted
          && !v[i].deleted && v[i].seen == m[v[i].id].copy.seen && v[i].receivedAt == m[v[i].id].receivedAt)
    && (forall id :: id in m && m[id].copy.owner == owner && m[id].copy.folder == folder && !m[id].deleted ==>
          exists i :: 0 <= i < |v| && v[i].id == id)
  }

  lemma SnapshotShows(v: seq<Cached>, m: map<string, Row>, owner: Address, folder: string)
    requires Snapshot(v, m, owner, folder)
    ensures Shows(v, m, owner, folder)
  {
    forall id | id in m && m[id].copy.owner == owner && m[id].copy.folder == folder && !m[id].deleted
      ensures exists i :: 0 <= i < |v| && v[i].id == id
    {
      assert InFolder(m[id], owner, folder);
    }
  }

  lemma SnapshotFlags(v: seq<Cached>, m: map<string, Row>, owner: Address, folder: string)
    requires Snapshot(v, m, owner, folder)
    ensures Coherent(v, m, {}) && DeletedIds(v) == {} && forall i :: 0 <= i < |v| ==> v[i].id in m
  {
  }

  // ----- the session -----

  /** A message loaded from the table; its flags are updated in place. */
  class CachedMessage {
    const id: string
    const receivedAt: int
    var seen: bool
    var deleted: bool

    constructor (id: string, receivedAt: int, seen: bool, deleted: bool)
      ensures this.id == id && this.receivedAt == receivedAt && this.seen == seen && this.deleted == deleted
    {
      this.id, this.receivedAt, this.seen, this.deleted := id, receivedAt, seen, deleted;
    }

    function Value(): Cached
      reads this
    {
      Cached(id, receivedAt, seen, deleted)
    }
  }

  function CachedValues(msgs: seq<CachedMessage>): seq<Cached>
    reads msgs
  {
    seq(|msgs|, i requires 0 <= i < |msgs| reads msgs => msgs[i].Value())
  }

  class Session {
    const store: Store
    const username: Address
    var mailbox: string              // "" when nothing is selected
    var messages: seq<CachedMessage>
    ghost var lost: set<string>      // messages with a flag write that failed since SELECT
    ghost var marked: set<string>    // messages STOREd \Deleted since SELECT

    ghost predicate Valid()
      reads this, store, messages
    {
      Good(CachedValues(messages), store.messages, store.issued, lost, marked)
    }

    constructor (store: Store, username: Address)
      requires store.Valid()
      ensures Valid() && mailbox == "" && messages == [] && marked == {} && lost == {}
      ensures this.store == store && this.username == username
    {
      this.store, this.username := store, username;
      mailbox, messages, lost, marked := "", [], {}, {};
    }

    /** SELECT and EXAMINE, which are treated alike.  A query that fails leaves the previous selection in
        place. */
    method HandleSelect(name: string, readOnly: bool, answered: bool) returns (exists': nat, firstUnseen: nat)
      requires Valid()
      modifies this
      ensures Valid()
      ensures if answered then
                && mailbox == FolderOf(name) && fresh(messages) && marked == {} && lost == {}
                && Snapshot(CachedValues(messages), store.messages, username, mailbox)
                && exists' == |messages| && FirstUnseen(CachedValues(messages), firstUnseen)
                && Shows(CachedValues(messages), store.messages, username, if name == "" then "INBOX" else name)
              else
                mailbox == old(mailbox) && messages == old(messages) && marked == old(marked) && lost == old(lost)
    {
      var folder := FolderOf(name);
      exists', firstUnseen := 0, 0;
      var ids := store.ListMessages(username, folder, answered);
      if answered {
        var msgs := LoadMailbox(folder, ids);
        exists' := |msgs|;
        firstUnseen := FindFirstUnseen(msgs);
        Open(folder, msgs);
        SnapshotShows(CachedValues(messages), store.messages, username, folder);
      }
    }

    method Open(folder: string, msgs: seq<CachedMessage>)
      requires Valid() && Snapshot(CachedValues(msgs), store.messages, username, folder)
      modifies this
      ensures Valid() && mailbox == folder && messages == msgs && marked == {} && lost == {}
    {
      SnapshotFlags(CachedValues(msgs), store.messages, username, folder);
      mailbox, messages, lost, marked := folder, msgs, {}, {};
    }

    method LoadMailbox(folder: string, ids: seq<string>) returns (msgs: seq<CachedMessage>)
      requires Lists(store.messages, username, folder, ids)
      ensures fresh(msgs) && Snapshot(CachedValues(msgs), store.messages, username, folder)
    {
      var loaded := Load(ids);
      msgs := SortByDate(loaded);
      forall i | 0 <= i < |msgs| ensures fresh(msgs[i]) { assert msgs[i] in loaded; }
      SortedSnapshot(store.messages, username, folder, ids, loaded, msgs);
    }

    method Load(ids: seq<string>) returns (msgs: seq<CachedMessage>)
      requires forall id :: id in ids ==> id in store.messages
      ensures fresh(msgs) && |msgs| == |ids|
      ensures forall i :: 0 <= i < |ids| ==>
                msgs[i].Value() == CachedRow(ids[i], store.messages[ids[i]])
    {
      msgs := [];
      for i := 0 to |ids|
        invariant fresh(msgs) && |msgs| == i
        invariant forall k :: 0 <= k < i ==> msgs[k].Value() == CachedRow(ids[k], store.messages[ids[k]])
      {
        var row := store.messages[ids[i]];
        var m := new CachedMessage(ids[i], row.receivedAt, row.copy.seen, row.deleted);
        msgs := msgs + [m];
      }
    }

    /** FETCH: the number and the seen flag of each message addressed, as the session knows them.  Every
        whole body asked for marks its message seen in the table. */
    method HandleFetch(q: FetchRequest) returns (flags: seq<(int, bool)>)
      requires Valid() && store.Valid()
      modifies store`messages
      ensures Valid() && store.Valid()
      ensures store.messages == FetchedRows(old(store.messages), CachedValues(messages), q, |q.positions|)
      ensures flags == SeenFlags(CachedValues(messages), q.positions)
    {
      flags := [];
      ghost var v, m := CachedValues(messages), store.messages;
      for k := 0 to |q.positions|
        invariant Valid() && store.Valid()
        invariant store.messages == FetchedRows(m, v, q, k)
        invariant flags == SeenFlags(v, q.positions[..k])
      {
        TakeNext(q.positions, k);
        var idx := q.positions[k];
        if 0 <= idx < |messages| {
          flags := flags + [(idx + 1, messages[idx].seen)];
          FetchItems(idx, q, k);
        }
      }
      assert q.positions[..|q.positions|] == q.positions;
    }

    /** The items of one message. */
    method FetchItems(idx: nat, q: FetchRequest, k: nat)
      requires Valid() && store.Valid() && idx < |messages|
      modifies store`messages
      ensures Valid() && store.Valid()
      ensures store.messages == Raise(old(store.messages), messages[idx].id, Marks(q, k, |q.items|), false)
    {
      ghost var m, id := store.messages, messages[idx].id;
      RaiseNothing(m, id);
      for j := 0 to |q.items|
        invariant store.Valid() && store.messages == Raise(m, id, Marks(q, k, j), false)
      {
        if q.items[j].Body? {
          RaiseTwice(m, id, Marks(q, k, j), false, (k, j) !in q.fails, false);
          store.MarkSeen(messages[idx].id, (k, j) !in q.fails);
        }
      }
      RaiseEvolves(m, store.issued, id, Marks(q, k, |q.items|), false);
      GoodEvolves(CachedValues(messages), m, store.issued, lost, marked, store.messages, store.issued);
    }

    /** STORE.  The action is not looked at: flags are only ever raised, in the session and in the
        table, position by position. */
    method HandleStore(q: StoreRequest)
      requires Valid() && store.Valid()
      modifies this`lost, this`marked, messages, store`messages
      ensures Valid() && store.Valid()
      ensures CachedValues(messages) == Flagged(old(CachedValues(messages)), q.positions, q.seen, q.deleted)
      ensures forall i :: 0 <= i < |messages| ==>
                && messages[i].seen == (old(messages[i].seen) || (q.seen && i in q.positions))
                && messages[i].deleted == (old(messages[i].deleted) || (q.deleted && i in q.positions))
      ensures store.messages == StoredRows(old(store.messages), old(CachedValues(messages)), q, |q.positions|)
      ensures lost == old(lost) + FailedIds(old(CachedValues(messages)), q, |q.positions|)
      ensures marked == old(marked) +
                (if q.deleted then Targets(old(CachedValues(messages)), q.positions, |q.positions|) else {})
    {
      ghost var v := CachedValues(messages);
      FlaggedNothing(v, q.seen, q.deleted);
      for k := 0 to |q.positions|
        invariant Valid() && store.Valid()
        invariant Progress(v, old(store.messages), old(lost), old(marked), q, k)
      {
        StoreNext(q, k, v, old(store.messages), old(lost), old(marked));
      }
      assert q.positions[..|q.positions|] == q.positions;
      assert forall i :: 0 <= i < |messages| ==> messages[i].Value() == Flagged(v, q.positions, q.seen, q.deleted)[i];
    }

    /** How far a STORE has come. */
    ghost predicate Progress(v: seq<Cached>, m: map<string, Row>, lost0: set<string>, marked0: set<string>,
                             q: StoreRequest, k: nat)
      requires k <= |q.positions|
      reads this, store, messages
    {
      StoreState(CachedValues(messages), store.messages, lost, marked) ==
      Reached(StoreState(v, m, lost0, marked0), q, k)
    }

    /** One position of a STORE; positions outside the list are skipped. */
    method StoreNext(q: StoreRequest, k: nat, ghost v: seq<Cached>, ghost m: map<string, Row>,
                     ghost lost0: set<string>, ghost marked0: set<string>)
      requires Valid() && store.Valid() && k < |q.positions| && Progress(v, m, lost0, marked0, q, k)
      modifies this`lost, this`marked, messages, store`messages
      ensures Valid() && store.Valid() && Progress(v, m, lost0, marked0, q, k + 1)
    {
      ReachedNext(StoreState(v, m, lost0, marked0), q, k);
      if 0 <= q.positions[k] < |messages| {
        StoreOne(q.positions[k], q.seen, q.deleted, k !in q.seenFails, k !in q.deletedFails);
      }
    }

    method StoreOne(idx: nat, seen: bool, deleted: bool, seenWorks: bool, deletedWorks: bool)
      requires Valid() && store.Valid() && idx < |messages|
      modifies this`lost, this`marked, messages, store`messages
      ensures Valid() && store.Valid()
      ensures CachedValues(messages) == Flagged(old(CachedValues(messages)), [idx], seen, deleted)
      ensures store.messages ==
              Raise(old(store.messages), old(CachedValues(messages))[idx].id,
                    seen && seenWorks, deleted && deletedWorks)
      ensures lost == old(lost) +
                if (seen && !seenWorks) || (deleted && !deletedWorks) then {old(CachedValues(messages))[idx].id} else {}
      ensures marked == old(marked) + if deleted then {old(CachedValues(messages))[idx].id} else {}
    {
      ghost var v, m, id := CachedValues(messages), store.messages, messages[idx].id;
      RaiseFlags(messages[idx].id, seen, deleted, seenWorks, deletedWorks);
      RaiseEvolves(m, store.issued, id, seen && seenWorks, deleted && deletedWorks);
      SetFlags(idx, seen, deleted);
      ghost var failed := if (seen && !seenWorks) || (deleted && !deletedWorks) then {id} else {};
      FlagOne(v, m, store.issued, lost, marked, idx, seen, deleted, store.messages, failed, CachedValues(messages));
      Remember(failed, if deleted then {id} else {});
    }

    /** Bookkeeping of the proof: what was lost and what was marked. */
    ghost method Remember(failed: set<string>, deleted: set<string>)
      requires Good(CachedValues(messages), store.messages, store.issued, lost + failed, marked + deleted)
      modifies this`lost, this`marked
      ensures CachedValues(messages) == old(CachedValues(messages)) && Valid()
      ensures lost == old(lost) + failed && marked == old(marked) + deleted
    {
      lost, marked := lost + failed, marked + deleted;
      assert CachedValues(messages) == old(CachedValues(messages));
    }

    /** The table's side of one STORE; errors are not looked at. */
    method RaiseFlags(id: string, seen: bool, deleted: bool, seenWorks: bool, deletedWorks: bool)
      requires store.Valid()
      modifies store`messages
      ensures store.Valid()
      ensures store.messages == Raise(old(store.messages), id, seen && seenWorks, deleted && deletedWorks)
    {
      RaiseNothing(store.messages, id);
      RaiseTwice(store.messages, id, seen && seenWorks, false, false, deleted && deletedWorks);
      if seen {
        store.MarkSeen(id, seenWorks);
      }
      if deleted {
        store.MarkDeleted(id, deletedWorks);
      }
    }

    /** The session's side of one STORE. */
    method SetFlags(idx: nat, seen: bool, deleted: bool)
      requires idx < |messages| && DistinctIds(CachedValues(messages))
      modifies messages[idx]
      ensures CachedValues(messages) == Flagged(old(CachedValues(messages)), [idx], seen, deleted)
    {
      ghost var v := CachedValues(messages);
      assert forall i :: 0 <= i < |messages| && i != idx ==> messages[i].id == v[i].id != v[idx].id;
      messages[idx].seen := messages[idx].seen || seen;
      messages[idx].deleted := messages[idx].deleted || deleted;
    }

    /** CLOSE: deletes the messages marked deleted, in order, and deselects; `luck` says which calls of
        each deletion work.  Of the table exactly the messages STOREd \Deleted since the SELECT go, less
        those whose deletion fails. */
    method HandleClose(luck: string -> Removal)
      requires Valid() && store.Valid()
      modifies this, store
      ensures Valid() && store.Valid() && mailbox == "" && messages == [] && marked == {} && lost == {}
      ensures store.Whole() ==
              RemoveAll(store.world, old(store.Whole()), DeletedList(old(CachedValues(messages))), luck)
      ensures store.messages == old(store.messages) - Removable(old(marked), luck)
    {
      ghost var v, start := CachedValues(messages), store.Whole();
      for k := 0 to |messages|
        invariant store.Valid() && unchanged(this) && CachedValues(messages) == v
        invariant store.Whole() == RemoveAll(store.world, start, DeletedList(v[..k]), luck)
      {
        TakeNext(v, k);
        assert messages[k].Value() == v[k];
        if messages[k].deleted {
          RemoveNext(store.world, start, DeletedList(v[..k]), v[k].id, luck);
          var ok := store.DeleteMessageFull(messages[k].id, luck(messages[k].id));
        }
      }
      assert v[..|v|] == v;
      DeletedListed(v);
      RemoveAllExactly(store.world, start, DeletedList(v), luck);
      assert (set id | id in DeletedList(v)) == marked;
      mailbox, messages, lost, marked := "", [], {}, {};
    }

    ghost function Value(): Selected
      reads this, messages
    {
      Selected(mailbox, CachedValues(messages))
    }

    /** The commands of a session, one after the other. */
    method Serve(cmds: seq<Command>)
      returns (ghost views: seq<Selected>, ghost before: seq<map<string, Row>>, ghost after: seq<map<string, Row>>)
      requires Valid() && store.Valid()
      modifies this, messages, store
      ensures Valid() && store.Valid()
      ensures Run(username, views, before, after, cmds, |cmds|) && Undisturbed(before, after, |cmds|)
      ensures views[0] == old(Value()) && views[|cmds|] == Value()
      ensures cmds != [] ==> before[0] == old(store.messages) && after[|cmds| - 1] == store.messages
    {
      views, before, after := [Value()], [], [];
      for k := 0 to |cmds|
        invariant Valid() && store.Valid()
        invariant forall i :: 0 <= i < |messages| ==> fresh(messages[i]) || messages[i] in old(messages)
        invariant Run(username, views, before, after, cmds, k) && Undisturbed(before, after, k)
        invariant |views| == k + 1 && |before| == |after| == k && views[0] == old(Value()) && views[k] == Value()
        invariant if k == 0 then store.messages == old(store.messages)
                  else before[0] == old(store.messages) && after[k - 1] == store.messages
      {
        ghost var m := store.messages;
        Execute(cmds[k]);
        RunNext(username, views, before, after, cmds, Value(), m, store.messages);
        views, before, after := views + [Value()], before + [m], after + [store.messages];
      }
    }

    method Execute(cmd: Command)
      requires Valid() && store.Valid()
      modifies this, messages, store
      ensures Valid() && store.Valid()
      ensures Stepped(username, old(Value()), old(store.messages), cmd, Value(), store.messages)
      ensures forall i :: 0 <= i < |messages| ==> fresh(messages[i]) || messages[i] in old(messages)
    {
      match cmd
      case Select(name, readOnly, answered) =>
        var exists', firstUnseen := HandleSelect(name, readOnly, answered);
      case Fetch(q) =>
        var flags := HandleFetch(q);
      case Store(q) =>
        HandleStore(q);
      case Close(luck) =>
        HandleClose(luck);
    }
  }

  function FolderOf(name: string): string { if name == "" then "INBOX" else name }

  // ----- whole sessions -----

  datatype Selected = Selected(mailbox: string, messages: seq<Cached>)

  datatype Command =
    | Select(name: string, readOnly: bool, answered: bool)
    | Fetch(fetch: FetchRequest)
    | Store(store: StoreRequest)
    | Close(luck: string -> Removal)

  /** One command: the session's view and the table, before and after. */
  ghost predicate Stepped(owner: Address, a: Selected, m: map<string, Row>, cmd: Command, b: Selected,
                          m': map<string, Row>)
  {
    match cmd
    case Select(name, readOnly, answered) =>
      m' == m && if answered then b.mailbox == FolderOf(name) && Snapshot(b.messages, m, owner, b.mailbox) else b == a
    case Fetch(q) => b == a && m' == FetchedRows(m, a.messages, q, |q.positions|)
    case Store(q) =>
      && b == a.(messages := Flagged(a.messages, q.positions, q.seen, q.deleted))
      && m' == StoredRows(m, a.messages, q, |q.positions|)
    case Close(luck) => b == Selected("", []) && m' == m - Removable(DeletedIds(a.messages), luck)
  }

  /** The first `n` commands lead through the views; `before` and `after` are the table around each of
      them.  What others do to the table in between is not restricted. */
  ghost predicate Run(owner: Address, views: seq<Selected>, before: seq<map<string, Row>>, after: seq<map<string, Row>>,
                      cmds: seq<Command>, n: nat) {
    && n <= |cmds| && n < |views| && n <= |before| && n <= |after|
    && forall k :: 0 <= k < n ==> StepAt(owner, views, before, after, cmds, k)
  }

  /** Command number `k` of a run. */
  ghost predicate StepAt(owner: Address, views: seq<Selected>, before: seq<map<string, Row>>,
                         after: seq<map<string, Row>>, cmds: seq<Command>, k: int) {
    0 <= k < |cmds| && k + 1 < |views| && k < |before| && k < |after|
    && Stepped(owner, views[k], before[k], cmds[k], views[k + 1], after[k])
  }

  /** Nobody else touches the table. */
  ghost predicate Undisturbed(before: seq<map<string, Row>>, after: seq<map<string, Row>>, n: nat) {
    n <= |before| && n <= |after| && forall k :: 0 < k < n ==> before[k] == after[k - 1]
  }

  lemma RunNext(owner: Address, views: seq<Selected>, before: seq<map<string, Row>>, after: seq<map<string, Row>>,
                cmds: seq<Command>, view: Selected, m: map<string, Row>, m': map<string, Row>)
    requires var k := |before|; |views| == k + 1 && |after| == k < |cmds| && Run(owner, views, before, after, cmds, k)
    requires Stepped(owner, views[|before|], m, cmds[|before|], view, m')
    ensures Run(owner, views + [view], before + [m], after + [m'], cmds, |before| + 1)
  {
    forall k | 0 <= k <= |before| ensures StepAt(owner, views + [view], before + [m], after + [m'], cmds, k) {
      assert k < |before| ==> StepAt(owner, views, before, after, cmds, k);
    }
  }

  /** A command that replaces the list of messages. */
  predicate Resets(cmd: Command) { (cmd.Select? && cmd.answered) || cmd.Close? }

  ghost predicate NoReset(cmds: seq<Command>, from: nat, to: nat)
    requires to <= |cmds|
  {
    forall j :: from <= j < to ==> !Resets(cmds[j])
  }

  /** Command `k` is a STORE of \Deleted that addresses the message. */
  ghost predicate StoresDeleted(views: seq<Selected>, cmds: seq<Command>, k: nat, id: string)
    requires k < |cmds| && k < |views|
  {
    cmds[k].Store? && cmds[k].store.deleted
    && id in Targets(views[k].messages, cmds[k].store.positions, |cmds[k].store.positions|)
  }

  ghost predicate MarkedAt(views: seq<Selected>, cmds: seq<Command>, n: nat, id: string, k: nat)
    requires n <= |cmds| && n < |views|
  {
    k < n && StoresDeleted(views, cmds, k, id) && NoReset(cmds, k + 1, n)
  }

  ghost predicate MarkedSince(views: seq<Selected>, cmds: seq<Command>, n: nat, id: string)
    requires n <= |cmds| && n < |views|
  {
    exists k: nat :: MarkedAt(views, cmds, n, id, k)
  }

  /** What CLOSE would delete, over any run and whatever others do meanwhile: exactly the messages that
      some STORE of \Deleted addressed since they were last selected. */
  lemma {:induction false} MarkedSinceSelect(owner: Address, views: seq<Selected>, before: seq<map<string, Row>>,
                                             after: seq<map<string, Row>>, cmds: seq<Command>, n: nat, id: string)
    requires Run(owner, views, before, after, cmds, n) && DeletedIds(views[0].messages) == {}
    ensures id in DeletedIds(views[n].messages) <==> MarkedSince(views, cmds, n, id)
  {
    if n > 0 {
      MarkedSinceSelect(owner, views, before, after, cmds, n - 1, id);
      assert StepAt(owner, views, before, after, cmds, n - 1);
      MarkedStep(owner, views[n - 1], before[n - 1], cmds[n - 1], views[n], after[n - 1]);
      MarkedNext(views, cmds, n - 1, id);
    }
  }

  /** What one command does to the marks. */
  lemma MarkedStep(owner: Address, a: Selected, m: map<string, Row>, cmd: Command, b: Selected, m': map<string, Row>)
    requires Stepped(owner, a, m, cmd, b, m')
    ensures DeletedIds(b.messages) ==
            if Resets(cmd) then {}
            else if cmd.Store? && cmd.store.deleted then
              DeletedIds(a.messages) + Targets(a.messages, cmd.store.positions, |cmd.store.positions|)
            else DeletedIds(a.messages)
  {
    match cmd
    case Select(name, readOnly, answered) =>
      if answered {
        SnapshotFlags(b.messages, m, owner, b.mailbox);
      }
    case Fetch(q) =>
    case Store(q) =>
      FlaggedDeleted(a.messages, q.positions, q.seen, q.deleted);
    case Close(luck) =>
      assert DeletedIds([]) == {};
  }

  lemma FlaggedDeleted(v: seq<Cached>, positions: seq<int>, seen: bool, deleted: bool)
    ensures DeletedIds(Flagged(v, positions, seen, deleted)) ==
            DeletedIds(v) + if deleted then Targets(v, positions, |positions|) else {}
  {
    var w := Flagged(v, positions, seen, deleted);
    TargetsMeaning(v, positions, |positions|);
    forall id | id in DeletedIds(v) ensures id in DeletedIds(w) {
      var i :| 0 <= i < |v| && v[i].deleted && v[i].id == id;
      assert w[i].deleted && w[i].id == id;
    }
    forall id | id in DeletedIds(w)
      ensures id in DeletedIds(v) || (deleted && id in Targets(v, positions, |positions|))
    {
      var i :| 0 <= i < |w| && w[i].deleted && w[i].id == id;
      if !v[i].deleted {
        var k :| 0 <= k < |positions| && positions[k] == i;
        assert Hits(v, positions, k, id);
      }
    }
    if deleted {
      forall id | id in Targets(v, positions, |positions|) ensures id in DeletedIds(w) {
        var k: nat :| k < |positions| && Hits(v, positions, k, id);
        var i := positions[k];
        assert i in positions && w[i].deleted && w[i].id == id;
      }
    }
  }

  lemma {:induction false} TargetsMeaning(v: seq<Cached>, positions: seq<int>, n: nat)
    requires n <= |positions|
    ensures forall id :: id in Targets(v, positions, n) <==> exists k: nat :: k < n && Hits(v, positions, k, id)
  {
    if n > 0 {
      TargetsMeaning(v, positions, n - 1);
      forall id | id in Targets(v, positions, n) ensures exists k: nat :: k < n && Hits(v, positions, k, id) {
        if id in Targets(v, positions, n - 1) {
          var k: nat :| k < n - 1 && Hits(v, positions, k, id);
        } else {
          assert Hits(v, positions, n - 1, id);
        }
      }
    }
  }

  lemma MarkedNext(views: seq<Selected>, cmds: seq<Command>, n: nat, id: string)
    requires n < |cmds| && n + 1 < |views|
    ensures MarkedSince(views, cmds, n + 1, id) <==>
            StoresDeleted(views, cmds, n, id) || (!Resets(cmds[n]) && MarkedSince(views, cmds, n, id))
  {
    if MarkedSince(views, cmds, n + 1, id) {
      var k: nat :| MarkedAt(views, cmds, n + 1, id, k);
      assert k < n ==> MarkedAt(views, cmds, n, id, k) && !Resets(cmds[n]);
    }
    if StoresDeleted(views, cmds, n, id) {
      assert MarkedAt(views, cmds, n + 1, id, n);
    } else if !Resets(cmds[n]) && MarkedSince(views, cmds, n, id) {
      var k: nat :| MarkedAt(views, cmds, n, id, k);
      assert MarkedAt(views, cmds, n + 1, id, k);
    }
  }

  /** CLOSE over any run: of the table exactly the messages go that some STORE of \Deleted addressed since
      the last SELECT and whose deletion works. */
  lemma CloseRemoves(owner: Address, views: seq<Selected>, before: seq<map<string, Row>>, after: seq<map<string, Row>>,
                     cmds: seq<Command>, n: nat, id: string)
    requires Run(owner, views, before, after, cmds, n + 1) && DeletedIds(views[0].messages) == {} && cmds[n].Close?
    ensures id in after[n] <==> id in before[n] && !(MarkedSince(views, cmds, n, id) && cmds[n].luck(id).messageGone)
    ensures id in after[n] ==> after[n][id] == before[n][id]
  {
    assert StepAt(owner, views, before, after, cmds, n);
    MarkedSinceSelect(owner, views, before, after, cmds, n, id);
  }

  // ----- what CLOSE leaves behind -----

  /** The rows of a folder that are marked deleted. */
  function DeletedRows(m: map<string, Row>, owner: Address, folder: string): set<string> {
    set id | id in m && m[id].copy.owner == owner && m[id].copy.folder == folder && m[id].deleted
  }

  /** `gone` were deleted when the folder was selected; the session lists none of them, and what else is
      deleted by now the session has marked. */
  ghost predicate Tidy(owner: Address, folder: string, v: seq<Cached>, m: map<string, Row>, gone: set<string>) {
    && gone <= DeletedRows(m, owner, folder) <= gone + DeletedIds(v)
    && forall i :: 0 <= i < |v| ==> v[i].id !in gone
  }

  lemma TidyStep(owner: Address, folder: string, a: Selected, m: map<string, Row>, cmd: Command, b: Selected,
                 m': map<string, Row>, gone: set<string>)
    requires Stepped(owner, a, m, cmd, b, m') && !Resets(cmd) && Tidy(owner, folder, a.messages, m, gone)
    ensures Tidy(owner, folder, b.messages, m', gone)
  {
    match cmd
    case Select(name, readOnly, answered) =>
    case Fetch(q) =>
      FetchedRowsMeaning(m, a.messages, q, |q.positions|);
      assert DeletedRows(m', owner, folder) == DeletedRows(m, owner, folder);
    case Store(q) =>
      StoredRowsMeaning(m, a.messages, q, |q.positions|);
      FlaggedDeleted(a.messages, q.positions, q.seen, q.deleted);
      TargetsMeaning(a.messages, q.positions, |q.positions|);
  }

  lemma {:induction false} TidyRun(owner: Address, views: seq<Selected>, before: seq<map<string, Row>>,
                                   after: seq<map<string, Row>>, cmds: seq<Command>, i: nat, n: nat)
    requires i < n && Run(owner, views, before, after, cmds, n) && Undisturbed(before, after, n)
    requires cmds[i].Select? && cmds[i].answered && NoReset(cmds, i + 1, n)
    ensures var folder := FolderOf(cmds[i].name);
            Tidy(owner, folder, views[n].messages, after[n - 1], DeletedRows(before[i], owner, folder))
    decreases n
  {
    var folder := FolderOf(cmds[i].name);
    assert StepAt(owner, views, before, after, cmds, n - 1);
    if n > i + 1 {
      TidyRun(owner, views, before, after, cmds, i, n - 1);
      TidyStep(owner, folder, views[n - 1], before[n - 1], cmds[n - 1], views[n], after[n - 1],
               DeletedRows(before[i], owner, folder));
    } else {
      TidyFirst(owner, views[i], before[i], cmds[i], views[n], after[i]);
    }
  }

  lemma TidyFirst(owner: Address, a: Selected, m: map<string, Row>, cmd: Command, b: Selected, m': map<string, Row>)
    requires cmd.Select? && cmd.answered && Stepped(owner, a, m, cmd, b, m')
    ensures var folder := FolderOf(cmd.name); Tidy(owner, folder, b.messages, m', DeletedRows(m, owner, folder))
  {
    SnapshotFlags(b.messages, m, owner, FolderOf(cmd.name));
  }

  /** When nobody else touches the table, CLOSE leaves of a folder exactly the deleted rows that were
      deleted before the SELECT already, and those whose deletion fails.  So when deletions work, it
      leaves none exactly if the folder had none when it was selected. */
  lemma CloseLeaves(owner: Address, views: seq<Selected>, before: seq<map<string, Row>>, after: seq<map<string, Row>>,
                    cmds: seq<Command>, i: nat, n: nat)
    requires i < n && Run(owner, views, before, after, cmds, n + 1) && Undisturbed(before, after, n + 1)
    requires cmds[i].Select? && cmds[i].answered && NoReset(cmds, i + 1, n) && cmds[n].Close?
    ensures var folder := FolderOf(cmds[i].name);
            var failed := set id | id in DeletedRows(before[n], owner, folder) && id in DeletedIds(views[n].messages)
                                   && !cmds[n].luck(id).messageGone;
            DeletedRows(after[n], owner, folder) == DeletedRows(before[i], owner, folder) + failed
    ensures var folder := FolderOf(cmds[i].name);
            (forall id :: cmds[n].luck(id).messageGone) ==>
              (DeletedRows(after[n], owner, folder) == {} <==> DeletedRows(before[i], owner, folder) == {})
  {
    TidyRun(owner, views, before, after, cmds, i, n);
    assert before[n] == after[n - 1];
    assert StepAt(owner, views, before, after, cmds, n);
    var folder, v := FolderOf(cmds[i].name), views[n].messages;
    forall id | id in DeletedRows(before[i], owner, folder) ensures id !in DeletedIds(v) {
    }
  }

  // ----- EXAMINE -----

  /** The command's effect on the table would be none. */
  ghost predicate Harmless(a: Selected, m: map<string, Row>, cmd: Command) {
    match cmd
    case Select(_, _, _) => true
    case Fetch(q) =>
      forall k: nat :: k < |q.positions| && InRange(a.messages, q.positions[k]) && Marks(q, k, |q.items|) ==>
        a.messages[q.positions[k]].id in m ==> m[a.messages[q.positions[k]].id].copy.seen
    case Store(q) =>
      forall k: nat ::
        k < |q.positions| && InRange(a.messages, q.positions[k]) && a.messages[q.positions[k]].id in m ==>
        (q.seen && k !in q.seenFails ==> m[a.messages[q.positions[k]].id].copy.seen)
        && (q.deleted && k !in q.deletedFails ==> m[a.messages[q.positions[k]].id].deleted)
    case Close(luck) => forall id :: id in DeletedIds(a.messages) && id in m ==> !luck(id).messageGone
  }

  /** EXAMINE promises that nothing the session does changes the mailbox (section 6.3.2 of RFC 3501).  The
      server opens it like SELECT, so the promise is kept by a command exactly when it is harmless. */
  lemma ExamineKept(owner: Address, a: Selected, m: map<string, Row>, cmd: Command, b: Selected, m': map<string, Row>)
    requires Stepped(owner, a, m, cmd, b, m')
    ensures m' == m <==> Harmless(a, m, cmd)
  {
    match cmd
    case Select(name, readOnly, answered) =>
    case Fetch(q) => FetchUnchanged(m, a.messages, q);
    case Store(q) => StoreUnchanged(m, a.messages, q);
    case Close(luck) =>
      var gone := Removable(DeletedIds(a.messages), luck);
      if m' == m {
        forall id | id in DeletedIds(a.messages) && id in m ensures !luck(id).messageGone {
          assert id in m' ==> id !in gone;
        }
      }
  }

  lemma FlaggedNext(v: seq<Cached>, positions: seq<int>, p: int, seen: bool, deleted: bool)
    ensures Flagged(v, positions + [p], seen, deleted) ==
            Flagged(Flagged(v, positions, seen, deleted), [p], seen, deleted)
  {
  }

  /** The numbers and seen flags a FETCH reports, positions outside the list being skipped. */
  function SeenFlags(v: seq<Cached>, positions: seq<int>): seq<(int, bool)> {
    if positions == [] then []
    else
      var p, r := positions[|positions| - 1], SeenFlags(v, positions[..|positions| - 1]);
      if 0 <= p < |v| then r + [(p + 1, v[p].seen)] else r
  }

  lemma SeenFlagsNext(v: seq<Cached>, positions: seq<int>, p: int)
    ensures SeenFlags(v, positions + [p]) ==
            SeenFlags(v, positions) + if 0 <= p < |v| then [(p + 1, v[p].seen)] else []
  {
    assert (positions + [p])[..|positions|] == positions;
  }

  /** What a FETCH reports: for positions in range, in order, the number and the session's own seen flag. */
  lemma {:induction false} SeenFlagsInRange(v: seq<Cached>, positions: seq<int>, k: nat)
    requires forall i :: 0 <= i < |positions| ==> 0 <= positions[i] < |v|
    ensures |SeenFlags(v, positions)| == |positions|
    ensures k < |positions| ==> SeenFlags(v, positions)[k] == (positions[k] + 1, v[positions[k]].seen)
  {
    if positions != [] {
      var last := |positions| - 1;
      SeenFlagsInRange(v, positions[..last], k);
      SeenFlagsNext(v, positions[..last], positions[last]);
      assert positions == positions[..last] + [positions[last]];
    }
  }

  /** And positions outside the list leave no trace. */
  lemma {:induction false} SeenFlagsMeaning(v: seq<Cached>, positions: seq<int>, n: int, seen: bool)
    ensures (n, seen) in SeenFlags(v, positions) <==> 0 < n <= |v| && n - 1 in positions && v[n - 1].seen == seen
  {
    if positions != [] {
      var last := |positions| - 1;
      SeenFlagsMeaning(v, positions[..last], n, seen);
      SeenFlagsNext(v, positions[..last], positions[last]);
      assert positions == positions[..last] + [positions[last]];
    }
  }

  lemma FlaggedOutside(v: seq<Cached>, p: int, seen: bool, deleted: bool)
    requires !InRange(v, p)
    ensures Flagged(v, [p], seen, deleted) == v
  {
  }

  lemma RaiseNothing(m: map<string, Row>, id: string)
    ensures Raise(m, id, false, false) == m
  {
  }

  lemma RaiseTwice(m: map<string, Row>, id: string, seen: bool, deleted: bool, seen': bool, deleted': bool)
    ensures Raise(Raise(m, id, seen, deleted), id, seen', deleted') == Raise(m, id, seen || seen', deleted || deleted')
  {
  }

  lemma RaiseEvolves(m: map<string, Row>, issued: set<string>, id: string, seen: bool, deleted: bool)
    ensures Evolves(m, issued, Raise(m, id, seen, deleted)) && Raise(m, id, seen, deleted).Keys == m.Keys
  {
  }

  lemma FlaggedNothing(v: seq<Cached>, seen: bool, deleted: bool)
    ensures Flagged(v, [], seen, deleted) == v
  {
  }

  function CachedRow(id: string, r: Row): Cached { Cached(id, r.receivedAt, r.copy.seen, r.deleted) }

  /** findFirstUnseen: one-based, 1 when everything is seen. */
  ghost predicate FirstUnseen(v: seq<Cached>, n: nat) {
    if exists i :: 0 <= i < |v| && !v[i].seen then
      1 <= n <= |v| && !v[n - 1].seen && forall k :: 0 <= k < n - 1 ==> v[k].seen
    else n == 1
  }

  method FindFirstUnseen(msgs: seq<CachedMessage>) returns (n: nat)
    ensures FirstUnseen(CachedValues(msgs), n)
    ensures if exists i :: 0 <= i < |msgs| && !msgs[i].seen
            then 0 < n <= |msgs| && !msgs[n - 1].seen && forall k :: 0 <= k < n - 1 ==> msgs[k].seen else n == 1
  {
    for i := 0 to |msgs|
      invariant forall k :: 0 <= k < i ==> msgs[k].seen
    {
      if !msgs[i].seen {
        return i + 1;
      }
    }
    return 1;
  }

  /** sort.Slice by date: the same messages, oldest first; the order of ties is not promised. */
  method SortByDate(msgs: seq<CachedMessage>) returns (sorted: seq<CachedMessage>)
    requires DistinctIds(CachedValues(msgs))
    ensures |sorted| == |msgs| && forall x :: x in sorted <==> x in msgs
    ensures DistinctIds(CachedValues(sorted)) && OldestFirst(CachedValues(sorted))
  {
    sorted := [];
    for n := 0 to |msgs|
      invariant |sorted| == n && forall x :: x in sorted <==> x in msgs[..n]
      invariant DistinctIds(CachedValues(sorted)) && OldestFirst(CachedValues(sorted))
    {
      TakeNext(msgs, n);
      var k := |sorted|;
      while k > 0 && sorted[k - 1].receivedAt > msgs[n].receivedAt
        invariant 0 <= k <= |sorted|
        invariant forall j :: k <= j < |sorted| ==> sorted[j].receivedAt > msgs[n].receivedAt
      {
        k := k - 1;
      }
      forall j | 0 <= j < |sorted| ensures sorted[j].id != msgs[n].id {
        assert sorted[j] in msgs[..n];
        var i :| 0 <= i < n && msgs[i] == sorted[j];
        assert CachedValues(msgs)[i].id != CachedValues(msgs)[n].id;
      }
      Inserted(sorted, k, msgs[n]);
      sorted := sorted[..k] + [msgs[n]] + sorted[k..];
    }
    assert msgs[..|msgs|] == msgs;
  }

  lemma Inserted(s: seq<CachedMessage>, k: nat, x: CachedMessage)
    requires k <= |s| && OldestFirst(CachedValues(s)) && DistinctIds(CachedValues(s))
    requires forall j :: 0 <= j < |s| ==> s[j].id != x.id
    requires k > 0 ==> s[k - 1].receivedAt <= x.receivedAt
    requires forall j :: k <= j < |s| ==> s[j].receivedAt > x.receivedAt
    ensures var t := s[..k] + [x] + s[k..];
            OldestFirst(CachedValues(t)) && DistinctIds(CachedValues(t)) && forall y :: y in t <==> y in s || y == x
  {
    var v, t := CachedValues(s), s[..k] + [x] + s[k..];
    assert CachedValues(t) == v[..k] + [x.Value()] + v[k..];
    InsertedOrder(v, k, x.Value());
    InsertedIds(v, k, x.Value());
    assert s == s[..k] + s[k..];
  }

  lemma InsertedOrder(v: seq<Cached>, k: nat, c: Cached)
    requires k <= |v| && OldestFirst(v)
    requires k > 0 ==> v[k - 1].receivedAt <= c.receivedAt
    requires forall j :: k <= j < |v| ==> v[j].receivedAt > c.receivedAt
    ensures OldestFirst(v[..k] + [c] + v[k..])
  {
  }

  lemma InsertedIds(v: seq<Cached>, k: nat, c: Cached)
    requires k <= |v| && DistinctIds(v) && forall j :: 0 <= j < |v| ==> v[j].id != c.id
    ensures DistinctIds(v[..k] + [c] + v[k..])
  {
  }

  /** Sorting a loaded listing gives a snapshot of the folder. */
  lemma SortedSnapshot(m: map<string, Row>, owner: Address, folder: string, ids: seq<string>,
                       loaded: seq<CachedMessage>, sorted: seq<CachedMessage>)
    requires Lists(m, owner, folder, ids) && |loaded| == |ids|
    requires forall i :: 0 <= i < |ids| ==> loaded[i].Value() == CachedRow(ids[i], m[ids[i]])
    requires forall x :: x in sorted <==> x in loaded
    requires DistinctIds(CachedValues(sorted)) && OldestFirst(CachedValues(sorted))
    ensures Snapshot(CachedValues(sorted), m, owner, folder)
  {
    var v := CachedValues(sorted);
    forall i | 0 <= i < |v|
      ensures v[i].id in m && InFolder(m[v[i].id], owner, folder) && v[i] == CachedRow(v[i].id, m[v[i].id])
    {
      assert sorted[i] in loaded;
      var k :| 0 <= k < |ids| && loaded[k] == sorted[i];
      assert ids[k] in ids;
    }
    forall id | id in m && InFolder(m[id], owner, folder) ensures exists i :: 0 <= i < |v| && v[i].id == id {
      assert id in ids;
      var k :| 0 <= k < |ids| && ids[k] == id;
      assert loaded[k] in sorted;
      var i :| 0 <= i < |sorted| && sorted[i] == loaded[k];
      assert v[i].id == id;
    }
  }
}
