/** Two-phase tenant erasure (scripts/delete_tenant.py). */
module Erasure {
  // One transaction removes the tenant's rows and remembers its blob keys, then blobs are deleted one by one
  // and the reminders cleared in a second transaction. A run may die anywhere; nothing else touches the
  // database meanwhile.

  import opened Options

  datatype Document = Document(id: nat, tenant: string, blobKey: string)
  /** A row of any other table with a tenant_id column. */
  datatype Row = Row(table: string, id: nat, tenant: string)
  datatype Membership = Membership(user: string, tenant: string)
  datatype Job = Job(id: nat, tenant: string)
  datatype Pending = Pending(tenant: string, blobKey: string)

  datatype World = World(
    tenants: set<string>, docs: set<Document>, rows: set<Row>, memberships: set<Membership>, users: set<string>,
    jobs: set<Job>, pending: set<Pending>, blobs: set<string>)

  // ---- the specification ------------------------------------------------------------------

  function BlobKeys(w: World, t: string): set<string> {
    set d | d in w.docs && d.tenant == t :: d.blobKey
  }

  function PendingKeys(w: World, t: string): set<string> {
    set p | p in w.pending && p.tenant == t :: p.blobKey
  }

  predicate Referenced(w: World, key: string) {
    exists d | d in w.docs :: d.blobKey == key
  }

  function Without(jobs: set<Job>, t: string): set<Job> {
    set j | j in jobs && j.tenant != t
  }

  /** Members of t that belong to no other workspace. */
  function OnlyHere(w: World, t: string): set<string> {
    set m | m in w.memberships && m.tenant == t && (forall n | n in w.memberships && n.user == m.user :: n.tenant == t) :: m.user
  }

  /** The keys the second phase works on; None for the exit "tenant not found". */
  function Worklist(w: World, t: string): Option<set<string>> {
    if t in w.tenants then Some(BlobKeys(w, t))
    else if PendingKeys(w, t) != {} then Some(PendingKeys(w, t))
    else None
  }

  /** The first transaction. */
  function Phase1(w: World, t: string): World {
    if t in w.tenants then
      World(w.tenants - {t},
            (set d | d in w.docs && d.tenant != t),
            (set r | r in w.rows && r.tenant != t),
            (set m | m in w.memberships && m.tenant != t),
            w.users - OnlyHere(w, t),
            Without(w.jobs, t),
            w.pending + (set k | k in BlobKeys(w, t) :: Pending(t, k)),
            w.blobs)
    else w.(jobs := Without(w.jobs, t))
  }

  /** Objects of `keys` that no document references are deleted. */
  function Sweep(w: World, keys: set<string>): World {
    w.(blobs := set b | b in w.blobs && (b in keys ==> Referenced(w, b)))
  }

  /** The second transaction's reminders, cleared. */
  function Clear(w: World, t: string, keys: set<string>): World {
    w.(pending := set p | p in w.pending && !(p.tenant == t && p.blobKey in keys))
  }

  /** An uninterrupted run. */
  function Erase(w: World, t: string): World {
    var keys := Worklist(w, t);
    if keys.None? then w else Clear(Sweep(Phase1(w, t), keys.value), t, keys.value)
  }

  /** A run that dies: before the first commit, or after deleting the objects of `swept`. */
  datatype Crash = BeforeCommit | During(swept: set<string>)

  function Interrupted(w: World, t: string, c: Crash): World {
    var keys := Worklist(w, t);
    match c
    case BeforeCommit => w
    case During(swept) => if keys.None? then w else Sweep(Phase1(w, t), swept * keys.value)
  }

  function AfterCrashes(w: World, t: string, crashes: seq<Crash>): World {
    if crashes == [] then w else Interrupted(AfterCrashes(w, t, crashes[..|crashes| - 1]), t, crashes[|crashes| - 1])
  }

  // ---- recovery ---------------------------------------------------------------------------

  /** Reminders exist only for tenants that are gone. */
  predicate Tidy(w: World) {
    forall p | p in w.pending :: p.tenant !in w.tenants
  }

  lemma InterruptedStaysTidy(w: World, t: string, c: Crash)
    requires Tidy(w)
    ensures Tidy(Interrupted(w, t, c)) && Tidy(Erase(w, t))
  {}

  lemma Phase1Reminds(w: World, t: string)
    requires Tidy(w) && t in w.tenants
    ensures PendingKeys(Phase1(w, t), t) == BlobKeys(w, t)
  {
    var w1 := Phase1(w, t);
    forall k ensures k in PendingKeys(w1, t) <==> k in BlobKeys(w, t) {
      if k in BlobKeys(w, t) {
        assert Pending(t, k) in w1.pending;
      }
    }
  }

  /** After one interrupted run the rest of the work is the same. */
  lemma InterruptedErasesToTheSame(w: World, t: string, c: Crash)
    requires Tidy(w)
    ensures Erase(Interrupted(w, t, c), t) == Erase(w, t)
  {
    var w' := Interrupted(w, t, c);
    if c.During? && Worklist(w, t).Some? {
      var keys := Worklist(w, t).value;
      if t in w.tenants {
        Phase1Reminds(w, t);
      }
      assert PendingKeys(w', t) == keys;
      assert forall k :: Referenced(w', k) == Referenced(Phase1(w, t), k);
      assert Without(w'.jobs, t) == w'.jobs;
      if keys == {} {
        assert Sweep(Phase1(w, t), keys).blobs == w.blobs;
        assert Erase(w, t) == w';
      } else {
        assert Phase1(w', t) == w';
        assert Sweep(w', keys) == Sweep(Phase1(w, t), keys);
      }
    }
  }

  /** However often it dies, the run that completes reaches the state of an uninterrupted run. */
  lemma {:induction false} RecoveryReachesTheSameState(w: World, t: string, crashes: seq<Crash>)
    requires Tidy(w)
    ensures Tidy(AfterCrashes(w, t, crashes)) && Erase(AfterCrashes(w, t, crashes), t) == Erase(w, t)
  {
    if crashes != [] {
      var before := crashes[..|crashes| - 1];
      RecoveryReachesTheSameState(w, t, before);
      InterruptedStaysTidy(AfterCrashes(w, t, before), t, crashes[|crashes| - 1]);
      InterruptedErasesToTheSame(AfterCrashes(w, t, before), t, crashes[|crashes| - 1]);
    }
  }

  /** Without tidiness a leftover reminder of a live tenant is forgotten by a clean run and worked off by
      an interrupted one. */
  lemma LeftoverReminderBreaksRecovery()
    ensures exists w, t, c :: !Tidy(w) && Erase(Interrupted(w, t, c), t) != Erase(w, t)
  {
    var w := World({"t"}, {}, {}, {}, {}, {}, {Pending("t", "k")}, {"k"});
    var w1 := Interrupted(w, "t", During({}));
    assert BlobKeys(w, "t") == {};
    assert w1.pending == w.pending && w1.blobs == {"k"};
    assert Pending("t", "k") in w1.pending && "k" in PendingKeys(w1, "t");
    assert "k" !in Erase(w1, "t").blobs;
    assert "k" in Erase(w, "t").blobs;
    assert Pending("t", "k") in w.pending && "t" in w.tenants;
    assert !Tidy(w);
  }

  lemma OneMoreCrash(w: World, t: string, crashes: seq<Crash>, c: Crash)
    ensures AfterCrashes(w, t, []) == w && AfterCrashes(w, t, crashes + [c]) == Interrupted(AfterCrashes(w, t, crashes), t, c)
  {
    assert (crashes + [c])[..|crashes|] == crashes;
  }

  /** A run that dies among the objects leaves no row of the tenant, a reminder for each object that its documents
      named, and every object that was not reached or that another tenant's document names. */
  lemma WhatAnInterruptionLeaves(w: World, t: string, swept: set<string>)
    requires t in w.tenants
    ensures var f := Interrupted(w, t, During(swept));
      f.tenants == w.tenants - {t} &&
      (forall d :: d in f.docs <==> d in w.docs && d.tenant != t) &&
      (forall p :: p in f.pending <==> p in w.pending || (p.tenant == t && exists d :: d in w.docs && d.tenant == t && d.blobKey == p.blobKey)) &&
      (forall b :: b in f.blobs <==>
        b in w.blobs &&
        !(b in swept && (exists d :: d in w.docs && d.tenant == t && d.blobKey == b) && forall d | d in w.docs && d.tenant != t :: d.blobKey != b))
  {
    var f := Interrupted(w, t, During(swept));
    forall p ensures p in f.pending <==> p in w.pending || (p.tenant == t && exists d :: d in w.docs && d.tenant == t && d.blobKey == p.blobKey) {
      assert p.tenant == t && p.blobKey in BlobKeys(w, t) ==> p == Pending(t, p.blobKey);
    }
  }

  // ---- what is erased and what is kept ----------------------------------------------------

  /** The final state, read off the initial one. */
  lemma WhatErasureLeaves(w: World, t: string)
    requires Tidy(w) && t in w.tenants
    ensures var f := Erase(w, t);
      f.tenants == w.tenants - {t} &&
      (forall d :: d in f.docs <==> d in w.docs && d.tenant != t) &&
      (forall r :: r in f.rows <==> r in w.rows && r.tenant != t) &&
      (forall m :: m in f.memberships <==> m in w.memberships && m.tenant != t) &&
      (forall j :: j in f.jobs <==> j in w.jobs && j.tenant != t) &&
      (forall p :: p in f.pending <==> p in w.pending && p.tenant != t)
  {
    assert forall p | p in w.pending :: p.tenant != t;
  }

  /** A blob survives exactly when it never was the tenant's, or another tenant's document references it. */
  lemma BlobSurvivesExactlyWhenShared(w: World, t: string, key: string)
    requires t in w.tenants && key in w.blobs
    ensures key in Erase(w, t).blobs <==>
      key !in BlobKeys(w, t) || exists d :: d in w.docs && d.tenant != t && d.blobKey == key
  {
    var w1 := Phase1(w, t);
    if d :| d in w.docs && d.tenant != t && d.blobKey == key {
      assert d in w1.docs;
    }
  }

  /** No run, interrupted or not, deletes a blob that another tenant's document references. */
  lemma {:induction false} SharedBlobsAreNeverDeleted(w: World, t: string, crashes: seq<Crash>, d: Document)
    requires d in w.docs && d.tenant != t
    ensures var c := AfterCrashes(w, t, crashes);
      d in c.docs && (d.blobKey in w.blobs ==> d.blobKey in c.blobs && d.blobKey in Erase(c, t).blobs)
  {
    if crashes != [] {
      SharedBlobsAreNeverDeleted(w, t, crashes[..|crashes| - 1], d);
      SweepSpares(AfterCrashes(w, t, crashes[..|crashes| - 1]), t, d);
    }
    SweepSpares(AfterCrashes(w, t, crashes), t, d);
  }

  lemma SweepSpares(w: World, t: string, d: Document)
    requires d in w.docs && d.tenant != t
    ensures d in Phase1(w, t).docs && forall keys, b | b == d.blobKey && b in w.blobs :: b in Sweep(Phase1(w, t), keys).blobs
  {
    assert d in Phase1(w, t).docs;
  }

  /** An account is removed exactly when the erased workspace was its only one. */
  lemma UserKeptExactlyWhenElsewhere(w: World, t: string, user: string)
    requires t in w.tenants && user in w.users
    ensures user in Erase(w, t).users <==>
      Membership(user, t) !in w.memberships || exists m :: m in w.memberships && m.user == user && m.tenant != t
  {
    if user in OnlyHere(w, t) {
      var m :| m in w.memberships && m.tenant == t && m.user == user && (forall n | n in w.memberships && n.user == m.user :: n.tenant == t);
      assert m == Membership(user, t);
    } else if Membership(user, t) in w.memberships {
      var m := Membership(user, t);
      assert !(forall n | n in w.memberships && n.user == m.user :: n.tenant == t);
    }
  }

  // ---- the script as written --------------------------------------------------------------

  datatype Exit = Deleted(checked: nat) | NotFound | Died

  class Database {
    var tenants: set<string>
    var docs: set<Document>
    var rows: set<Row>
    var memberships: set<Membership>
    var users: set<string>
    var jobs: set<Job>
    var pending: set<Pending>
    var blobs: set<string>

    ghost function View(): World
      reads this
    {
      World(tenants, docs, rows, memberships, users, jobs, pending, blobs)
    }

    /** A query result: each key once, in some order. */
    method Listing(keys: set<string>) returns (list: seq<string>)
      ensures (forall k :: k in list <==> k in keys) && |list| == |keys|
      ensures forall i, j | 0 <= i < j < |list| :: list[i] != list[j]
    {
      list := [];
      var rest := keys;
      while rest != {}
        invariant rest <= keys && |list| + |rest| == |keys|
        invariant forall k :: k in list <==> k in keys && k !in rest
        invariant forall i, j | 0 <= i < j < |list| :: list[i] != list[j]
        decreases |rest|
      {
        var k :| k in rest;
        list, rest := list + [k], rest - {k};
      }
    }

    /** The INSERT loop, duplicates ignored. */
    method Remind(t: string, list: seq<string>)
      modifies this`pending
      ensures pending == old(pending) + set k | k in list :: Pending(t, k)
    {
      for i := 0 to |list|
        invariant pending == old(pending) + set k | k in list[..i] :: Pending(t, k)
      {
        assert list[..i + 1] == list[..i] + [list[i]];
        pending := pending + {Pending(t, list[i])};
      }
      assert list[..|list|] == list;
    }

    /** The DELETE of every table with a tenant_id column, and of the queued jobs. */
    method DeleteRows(t: string)
      modifies this`docs, this`rows, this`memberships, this`jobs
      ensures docs == set d | d in old(docs) && d.tenant != t
      ensures rows == set r | r in old(rows) && r.tenant != t
      ensures memberships == set m | m in old(memberships) && m.tenant != t
      ensures jobs == Without(old(jobs), t)
    {
      docs := set d | d in docs && d.tenant != t;
      rows := set r | r in rows && r.tenant != t;
      memberships := set m | m in memberships && m.tenant != t;
      jobs := set j | j in jobs && j.tenant != t;
    }

    /** The DELETE of accounts, given the members listed before their memberships went. */
    method DeleteAccounts(t: string, members: set<string>, ghost was: World)
      requires memberships == set m | m in was.memberships && m.tenant != t
      requires members == set m | m in was.memberships && m.tenant == t :: m.user
      modifies this`users
      ensures users == old(users) - OnlyHere(was, t)
    {
      users := set u | u in users && !(u in members && forall m | m in memberships :: m.user != u);
      forall u ensures u in users <==> u in old(users) - OnlyHere(was, t) {
        LastMembership(was, t, u, memberships);
      }
    }

    /** The first transaction, with the keys it hands to the second phase. */
    method RemoveRows(t: string) returns (keys: Option<seq<string>>)
      modifies this
      ensures keys.None? <==> Worklist(old(View()), t).None?
      ensures keys.None? ==> View() == old(View())
      ensures keys.Some? ==> View() == Phase1(old(View()), t)
      ensures keys.Some? ==> forall k :: k in keys.value <==> k in Worklist(old(View()), t).value
      ensures keys.Some? ==> |keys.value| == |Worklist(old(View()), t).value|
    {
      ghost var was := View();
      if t !in tenants {
        var left := set p | p in pending && p.tenant == t :: p.blobKey;
        assert left == PendingKeys(was, t);
        if left == {} {
          return None;
        }
        var list := Listing(left);
        jobs := set j | j in jobs && j.tenant != t;
        return Some(list);
      }
      var own := set d | d in docs && d.tenant == t :: d.blobKey;
      assert own == BlobKeys(was, t);
      var list := Listing(own);
      var members := set m | m in memberships && m.tenant == t :: m.user;
      Remind(t, list);
      DeleteRows(t);
      tenants := tenants - {t};
      DeleteAccounts(t, members, was);
      SameReminders(t, list, BlobKeys(was, t));
      return Some(list);
    }

    static lemma SameReminders(t: string, list: seq<string>, keys: set<string>)
      requires forall k :: k in list <==> k in keys
      ensures (set k | k in list :: Pending(t, k)) == (set k | k in keys :: Pending(t, k))
    {}

    static lemma LastMembership(w: World, t: string, u: string, left: set<Membership>)
      requires left == set m | m in w.memberships && m.tenant != t
      ensures u in OnlyHere(w, t) <==>
        u in (set m | m in w.memberships && m.tenant == t :: m.user) && forall m | m in left :: m.user != u
    {
      if m :| m in w.memberships && m.tenant == t && m.user == u && forall n | n in left :: n.user != u {
        forall n | n in w.memberships && n.user == m.user ensures n.tenant == t {
          assert n.tenant != t ==> n in left;
        }
      }
    }

    /** `main` for a confirmed tenant. `lifetime` is how many objects are processed before the process
        dies; the reminders it cleared are then rolled back, the deleted objects stay deleted. */
    method EraseTenant(t: string, lifetime: nat) returns (exit: Exit, ghost swept: set<string>)
      modifies this
      ensures exit == NotFound <==> Worklist(old(View()), t).None?
      ensures exit == NotFound ==> View() == old(View())
      ensures exit.Deleted? ==> View() == Erase(old(View()), t) && exit.checked == |Worklist(old(View()), t).value|
      ensures exit == Died ==> View() == Interrupted(old(View()), t, During(swept))
    {
      swept := {};
      var keys := RemoveRows(t);
      if keys.None? {
        return NotFound, swept;
      }
      ghost var work := Worklist(old(View()), t).value;
      ghost var was := View();
      var list, committed := keys.value, pending;
      for i := 0 to |list|
        invariant swept == set k | k in list[..i]
        invariant View() == Clear(Sweep(was, swept), t, swept)
      {
        if i == lifetime {
          pending := committed;
          assert swept * work == swept;
          return Died, swept;
        }
        var key := list[i];
        assert list[..i + 1] == list[..i] + [key];
        ghost var before := View();
        if forall d | d in docs :: d.blobKey != key {
          blobs := blobs - {key};
        }
        pending := pending - {Pending(t, key)};
        swept := swept + {key};
        assert forall b :: Referenced(before, b) == Referenced(was, b);
      }
      assert list[..|list|] == list && swept == work;
      return Deleted(|list|), swept;
    }
  }
}
