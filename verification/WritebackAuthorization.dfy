/**
  `LocalWritebackAuthorizationStore`: which change sets may delete files. The nested maps with their
  expiry times are proved against the plain history of authorisations and successful applies.
 */
module WritebackAuthorization {

  import opened Collation
  import opened Options
  import opened StableJson

  datatype Permission = Allow | Confirm | Deny
  datatype Policy = Policy(workspaceRead: Permission, workspaceWrite: Permission, workspaceDelete: Permission,
                           commandExecute: Permission, testExecute: Permission, dependencyInstall: Permission)

  datatype ChangeSet = ChangeSet(id: string, tree: Json)

  /** An operation request; only `applyChangeSet` carries a change set. */
  datatype Request = ApplyChangeSet(workspaceId: string, input: ChangeSet) | OtherOperation(workspaceId: string)

  datatype Authorization = Authorization(digest: string, expiresAt: int)

  datatype Event =
    | Authorized(workspaceId: string, changeSetId: string, digest: string, at: int)
    | Applied(workspaceId: string, changeSetId: string)

  function LowerChar(c: char): char {
    if 'A' <= c <= 'Z' then ((c as int) + 32) as char else c
  }

  function Lower(s: string): string {
    seq(|s|, i requires 0 <= i < |s| => LowerChar(s[i]))
  }

  predicate IsDigest(s: string) {
    |s| == 64 && forall i :: 0 <= i < 64 ==> '0' <= s[i] <= '9' || 'a' <= s[i] <= 'f' || 'A' <= s[i] <= 'F'
  }

  // ---------------------------------------------------------------- the history

  /** The authorisation in force for a change set: the latest one, unless it has been used since. */
  ghost function InForce(history: seq<Event>, workspaceId: string, changeSetId: string): (r: Option<Event>)
    ensures r.Some? ==>
      r.value.Authorized? && r.value.workspaceId == workspaceId && r.value.changeSetId == changeSetId &&
      r.value in history
  {
    if history == [] then None
    else
      var last := history[|history| - 1];
      if last.workspaceId == workspaceId && last.changeSetId == changeSetId then
        (if last.Authorized? then Some(last) else None)
      else InForce(history[..|history| - 1], workspaceId, changeSetId)
  }

  /** The request may delete: the authorisation in force is younger than `ttlMs` and carries `digest`. */
  ghost predicate Covers(history: seq<Event>, ttlMs: int, workspaceId: string, changeSetId: string, digest: string,
                         now: int) {
    var event := InForce(history, workspaceId, changeSetId);
    event.Some? && now - event.value.at < ttlMs && event.value.digest == digest
  }

  /** The latest thing that has happened to a change set. */
  ghost predicate LatestOf(history: seq<Event>, w: string, c: string, i: nat) {
    i < |history| && history[i].workspaceId == w && history[i].changeSetId == c &&
    forall j :: i < j < |history| ==> history[j].workspaceId != w || history[j].changeSetId != c
  }

  lemma {:induction false} InForceIsLatest(history: seq<Event>, w: string, c: string) returns (i: nat)
    requires InForce(history, w, c).Some?
    ensures LatestOf(history, w, c, i) && InForce(history, w, c) == Some(history[i])
  {
    var n := |history| - 1;
    if history[n].workspaceId == w && history[n].changeSetId == c {
      i := n;
    } else {
      i := InForceIsLatest(history[..n], w, c);
      assert forall j :: i < j < n ==> history[..n][j] == history[j];
    }
  }

  lemma {:induction false} LatestIsInForce(history: seq<Event>, w: string, c: string, i: nat)
    requires LatestOf(history, w, c, i)
    ensures InForce(history, w, c) == if history[i].Authorized? then Some(history[i]) else None
  {
    if i < |history| - 1 { LatestIsInForce(history[..|history| - 1], w, c, i); }
  }

  /** A request is covered if and only if the latest thing that has happened to its change set is an authorisation of
      its digest, younger than the limit; a successful apply is such a thing too. */
  lemma CoversReads(history: seq<Event>, ttlMs: int, w: string, c: string, digest: string, now: int)
    ensures Covers(history, ttlMs, w, c, digest, now) <==>
      exists i: nat :: LatestOf(history, w, c, i) && history[i].Authorized? && history[i].digest == digest &&
                       now - history[i].at < ttlMs
  {
    if Covers(history, ttlMs, w, c, digest, now) {
      var i := InForceIsLatest(history, w, c);
    }
    forall i: nat | LatestOf(history, w, c, i)
      ensures InForce(history, w, c) == if history[i].Authorized? then Some(history[i]) else None
    {
      LatestIsInForce(history, w, c, i);
    }
  }

  lemma InForceAppend(history: seq<Event>, event: Event, w: string, c: string)
    ensures InForce(history + [event], w, c) ==
            if event.workspaceId == w && event.changeSetId == c then (if event.Authorized? then Some(event) else None)
            else InForce(history, w, c)
  {
    assert (history + [event])[..|history|] == history;
  }

  // ---------------------------------------------------------------- the store

  type Store = map<string, map<string, Authorization>>

  function Find(store: Store, w: string, c: string): Option<Authorization> {
    if w in store && c in store[w] then Some(store[w][c]) else None
  }

  function Put(store: Store, w: string, c: string, a: Authorization): Store {
    store[w := (if w in store then store[w] else map[])[c := a]]
  }

  /** Remove an entry, and the inner map with it when it was the last one. */
  function Drop(store: Store, w: string, c: string): Store {
    if w !in store then store
    else
      var inner := store[w] - {c};
      if |inner| == 0 then store - {w} else store[w := inner]
  }

  ghost predicate NoEmptyMaps(store: Store) {
    forall w :: w in store ==> store[w] != map[]
  }

  /** An entry is exactly what is in force; a missing entry means nothing is, or it has expired by `clock`. */
  ghost predicate Represents(store: Store, history: seq<Event>, ttlMs: int, clock: int) {
    forall w, c ::
      var event := InForce(history, w, c);
      match Find(store, w, c)
      case Some(a) => event.Some? && a == Authorization(event.value.digest, event.value.at + ttlMs)
      case None => event.Some? ==> event.value.at + ttlMs <= clock
  }

  lemma PutRepresents(store: Store, history: seq<Event>, ttlMs: int, clock: int, w: string, c: string, digest: string,
                      now: int)
    requires Represents(store, history, ttlMs, clock) && NoEmptyMaps(store) && clock <= now
    ensures Represents(Put(store, w, c, Authorization(digest, now + ttlMs)),
                       history + [Authorized(w, c, digest, now)], ttlMs, now)
    ensures NoEmptyMaps(Put(store, w, c, Authorization(digest, now + ttlMs)))
  {
    var event, after := Authorized(w, c, digest, now), Put(store, w, c, Authorization(digest, now + ttlMs));
    assert c in after[w];
    forall v, d
      ensures Find(after, v, d) == if v == w && d == c then Some(Authorization(digest, now + ttlMs))
        else Find(store, v, d)
      ensures InForce(history + [event], v, d) == if v == w && d == c then Some(event) else InForce(history, v, d)
    {
      InForceAppend(history, event, v, d);
    }
  }

  lemma DropFinds(store: Store, w: string, c: string)
    requires NoEmptyMaps(store)
    ensures forall v, d :: Find(Drop(store, w, c), v, d) == if v == w && d == c then None else Find(store, v, d)
    ensures NoEmptyMaps(Drop(store, w, c))
  {
    if w in store {
      var inner := store[w] - {c};
      if |inner| == 0 {
        assert inner == map[];
        assert forall d :: d in store[w] && d != c ==> d in inner;
      }
    }
  }

  lemma UsedRepresents(store: Store, history: seq<Event>, ttlMs: int, clock: int, w: string, c: string)
    requires Represents(store, history, ttlMs, clock) && NoEmptyMaps(store)
    ensures Represents(Drop(store, w, c), history + [Applied(w, c)], ttlMs, clock)
  {
    DropFinds(store, w, c);
    forall v, d
      ensures InForce(history + [Applied(w, c)], v, d) == if v == w && d == c then None else InForce(history, v, d)
    {
      InForceAppend(history, Applied(w, c), v, d);
    }
  }

  class LocalWritebackAuthorizationStore {
    const ttlMs: int
    const sha256: string -> string
    const compare: Order
    var deleteAuthorizations: Store
    ghost var history: seq<Event>
    // The latest reading of the clock; it never runs backwards.
    ghost var clock: int

    constructor (ttlMs: int, sha256: string -> string, compare: Order)
      ensures Valid() && history == [] && this.ttlMs == ttlMs && this.sha256 == sha256 && this.compare == compare
    {
      this.ttlMs, this.sha256, this.compare := ttlMs, sha256, compare;
      deleteAuthorizations, history, clock := map[], [], 0;
    }

    ghost predicate Valid()
      reads this
    {
      NoEmptyMaps(deleteAuthorizations) && Represents(deleteAuthorizations, history, ttlMs, clock)
    }

    /** `canonicalChangeSetDigest`. */
    function DigestOf(changeSet: ChangeSet): string {
      sha256(Text(compare, changeSet.tree))
    }

    method AuthorizeDigest(workspaceId: string, changeSetId: string, digest: string, now: int) returns (ok: bool)
      requires Valid() && clock <= now
      modifies this
      ensures Valid() && clock == now
      ensures ok <==> IsDigest(digest) && changeSetId != ""
      ensures ok ==> history == old(history) + [Authorized(workspaceId, changeSetId, Lower(digest), now)]
      ensures !ok ==> history == old(history) && deleteAuthorizations == old(deleteAuthorizations)
    {
      clock := now;
      if !IsDigest(digest) || changeSetId == "" { return false; }
      PutRepresents(deleteAuthorizations, history, ttlMs, old(clock), workspaceId, changeSetId, Lower(digest), now);
      deleteAuthorizations := Put(deleteAuthorizations, workspaceId, changeSetId,
                                  Authorization(Lower(digest), now + ttlMs));
      history := history + [Authorized(workspaceId, changeSetId, Lower(digest), now)];
      ok := true;
    }

    method AuthorizeDelete(workspaceId: string, changeSet: ChangeSet, now: int) returns (ok: bool)
      requires Valid() && clock <= now
      modifies this
      ensures Valid() && clock == now
      ensures ok <==> IsDigest(DigestOf(changeSet)) && changeSet.id != ""
      ensures ok ==> history == old(history) + [Authorized(workspaceId, changeSet.id, Lower(DigestOf(changeSet)), now)]
      ensures !ok ==> history == old(history)
    {
      ok := AuthorizeDigest(workspaceId, changeSet.id, DigestOf(changeSet), now);
    }

    /** Looks the change set up, and forgets an entry that has expired. */
    method HasDelete(workspaceId: string, changeSet: ChangeSet, now: int) returns (has: bool)
      requires Valid() && clock <= now
      modifies this
      ensures Valid() && clock == now && history == old(history)
      ensures has <==> Covers(history, ttlMs, workspaceId, changeSet.id, DigestOf(changeSet), now)
    {
      clock := now;
      var entry := Find(deleteAuthorizations, workspaceId, changeSet.id);
      if entry.None? { return false; }
      if entry.value.expiresAt <= now {
        DropFinds(deleteAuthorizations, workspaceId, changeSet.id);
        deleteAuthorizations := Drop(deleteAuthorizations, workspaceId, changeSet.id);
        return false;
      }
      has := entry.value.digest == DigestOf(changeSet);
    }

    /** The policy of a request: deleting is allowed exactly when the history covers the change set. */
    method PermissionsFor(request: Request, base: Policy, now: int) returns (policy: Policy)
      requires Valid() && clock <= now
      modifies this
      ensures Valid() && history == old(history)
      ensures policy ==
        if request.ApplyChangeSet? && Covers(history, ttlMs, request.workspaceId, request.input.id,
                                             DigestOf(request.input), now)
        then base.(workspaceDelete := Allow) else base
    {
      if !request.ApplyChangeSet? { return base; }
      var has := HasDelete(request.workspaceId, request.input, now);
      policy := if has then base.(workspaceDelete := Allow) else base;
    }

    method RecordApplyResult(request: Request, succeeded: bool)
      requires Valid()
      modifies this
      ensures Valid() && clock == old(clock)
      ensures history == if request.ApplyChangeSet? && succeeded then
        old(history) + [Applied(request.workspaceId, request.input.id)] else old(history)
    {
      if !request.ApplyChangeSet? || !succeeded { return; }
      UsedRepresents(deleteAuthorizations, history, ttlMs, clock, request.workspaceId, request.input.id);
      DropFinds(deleteAuthorizations, request.workspaceId, request.input.id);
      deleteAuthorizations := Drop(deleteAuthorizations, request.workspaceId, request.input.id);
      history := history + [Applied(request.workspaceId, request.input.id)];
    }
  }

  // ---------------------------------------------------------------- what the history gives

  /** A successful apply ends the authorisation: nothing is covered until the change set is authorised again. */
  lemma {:induction false} UsedOnce(history: seq<Event>, more: seq<Event>, ttlMs: int, w: string, c: string,
                                    digest: string, now: int)
    requires forall e :: e in more && e.workspaceId == w && e.changeSetId == c ==> !e.Authorized?
    ensures !Covers(history + [Applied(w, c)] + more, ttlMs, w, c, digest, now)
  {
    if more == [] {
      assert history + [Applied(w, c)] + more == history + [Applied(w, c)];
      InForceAppend(history, Applied(w, c), w, c);
    } else {
      var n := |more| - 1;
      UsedOnce(history, more[..n], ttlMs, w, c, digest, now);
      assert history + [Applied(w, c)] + more == (history + [Applied(w, c)] + more[..n]) + [more[n]];
      InForceAppend(history + [Applied(w, c)] + more[..n], more[n], w, c);
    }
  }

  /** What is covered was authorised: a request for deletion goes through only for a change set whose
      content, up to member order, is that of the latest authorised one. */
  lemma CoveredIsAuthorized(history: seq<Event>, ttlMs: int, w: string, granted: ChangeSet, at: int,
                            requested: ChangeSet, now: int, sha256: string -> string, compare: Order)
    requires forall x, y :: sha256(x) == sha256(y) ==> x == y
    requires Valid(granted.tree) && Valid(requested.tree) && granted.id == requested.id
    requires InForce(history, w, requested.id) ==
      Some(Authorized(w, granted.id, sha256(Text(compare, granted.tree)), at))
    requires Covers(history, ttlMs, w, requested.id, sha256(Text(compare, requested.tree)), now)
    ensures Meaning(granted.tree) == Meaning(requested.tree) && now - at < ttlMs
  {
    SameTextSameMeaning(compare, granted.tree, requested.tree);
  }
}
