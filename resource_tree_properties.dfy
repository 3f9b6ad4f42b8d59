/**
 * What `make_resource_tree_impl` guarantees about the resource table it
 * builds: one entry per distinct ID in first-occurrence order, each entry
 * holding that ID's jobs in order, no repeated UID within an entry, and
 * idempotence.  The last part follows a set of jobs through
 * `job_to_resource` and the tree, and shows that a job naming a resource
 * twice stops the build.
 */
module ResourceTreeProperties {
  import opened Entities
  import opened JobResourceDetails

  // ---------------------------------------------------------------------------
  // Reference definitions
  // ---------------------------------------------------------------------------

  /** `ids` without any occurrence of `x`, in order. */
  function Without(ids: seq<ResId>, x: ResId): seq<ResId> {
    if ids == [] then []
    else (if ids[0] == x then [] else [ids[0]]) + Without(ids[1..], x)
  }

  /**
   * The IDs of `ids` not in `seen`, each once, in the order of their first
   * occurrence: the order a resource table lists its entries in.
   */
  function FirstOccurrences(ids: seq<ResId>, seen: set<ResId>): (firsts: seq<ResId>)
    ensures forall x :: x in firsts <==> x in ids && x !in seen
    ensures forall i, j :: 0 <= i < j < |firsts| ==> firsts[i] != firsts[j]
    decreases |ids|
  {
    if ids == [] then []
    else if ids[0] in seen then FirstOccurrences(ids[1..], seen)
    else [ids[0]] + FirstOccurrences(ids[1..], seen + {ids[0]})
  }

  /** The jobs of every resource in `rs` with ID `id`, concatenated in list order. */
  function JobsFor(rs: seq<Resource>, id: ResId): seq<Job> {
    if rs == [] then []
    else (if rs[0].id == id then rs[0].jobs else []) + JobsFor(rs[1..], id)
  }

  /** No two resources of `rs` share an ID. */
  predicate DistinctIds(rs: seq<Resource>) {
    forall i, j :: 0 <= i < j < |rs| ==> rs[i].id != rs[j].id
  }

  /** Every resource of `rs` holds jobs with distinct UIDs. */
  predicate EachClaimUnique(rs: seq<Resource>) {
    forall r :: r in rs ==> UniqueUids(r.jobs)
  }

  // ---------------------------------------------------------------------------
  // One step of the tree, and how the filters act on IDs and jobs
  // ---------------------------------------------------------------------------

  /** The two groups of one step of `MakeResourceTree`: the front's group and the other IDs. */
  lemma TreeGroups(rs: seq<Resource>)
    requires rs != []
    ensures var kept := KeepResourceIfSameId(rs, rs[0]);
            var rest := RemoveResourceIfSameId(rs, rs[0]);
            && kept != [] && kept[0] == rs[0] && |rest| < |rs|
            && (forall r :: r in kept ==> r in rs && r.id == rs[0].id)
            && (forall r :: r in rest <==> r in rs && r.id != rs[0].id)
  {
  }

  /** One unfolding of `MakeResourceTree` on a non-empty list. */
  lemma TreeUnfold(rs: seq<Resource>)
    requires rs != []
    ensures var kept := KeepResourceIfSameId(rs, rs[0]);
            var rest := RemoveResourceIfSameId(rs, rs[0]);
            && (MakeResourceTree(rs).Ok? <==> MergeResourceList(kept).Ok? && MakeResourceTree(rest).Ok?)
            && (MakeResourceTree(rs).Ok? ==>
                  MakeResourceTree(rs).value == [MergeResourceList(kept).value] + MakeResourceTree(rest).value)
            && (MakeResourceTree(rs).Err? ==>
                  if MergeResourceList(kept).Err? then MakeResourceTree(rs).error == MergeResourceList(kept).error
                  else MakeResourceTree(rs).error == MakeResourceTree(rest).error)
  {
  }

  /** Removing the pivot's resources removes exactly the pivot's ID from the ID list. */
  lemma {:induction false} IdsOfRemoved(rs: seq<Resource>, pivot: Resource)
    ensures Ids(RemoveResourceIfSameId(rs, pivot)) == Without(Ids(rs), pivot.id)
  {
    if rs != [] {
      IdsOfRemoved(rs[1..], pivot);
      var rest' := RemoveResourceIfSameId(rs[1..], pivot);
      if rs[0].id != pivot.id {
        assert ([rs[0]] + rest')[1..] == rest';
      }
    }
  }

  /** Marking `x` as already seen is the same as deleting `x` beforehand. */
  lemma {:induction false} FirstOccurrencesWithout(ids: seq<ResId>, seen: set<ResId>, x: ResId)
    ensures FirstOccurrences(ids, seen + {x}) == FirstOccurrences(Without(ids, x), seen)
    decreases |ids|
  {
    if ids != [] {
      var y := ids[0];
      if y == x {
        FirstOccurrencesWithout(ids[1..], seen, x);
        assert Without(ids, x) == Without(ids[1..], x);
      } else if y in seen {
        FirstOccurrencesWithout(ids[1..], seen, x);
        assert Without(ids, x) == [y] + Without(ids[1..], x);
        assert ([y] + Without(ids[1..], x))[1..] == Without(ids[1..], x);
      } else {
        FirstOccurrencesWithout(ids[1..], seen + {y}, x);
        assert seen + {x} + {y} == seen + {y} + {x};
        assert ([y] + Without(ids[1..], x))[1..] == Without(ids[1..], x);
      }
    }
  }

  /** The jobs of the pivot's group, concatenated, are the jobs the list holds for the pivot's ID. */
  lemma {:induction false} KeptJobs(rs: seq<Resource>, pivot: Resource)
    ensures AllJobs(KeepResourceIfSameId(rs, pivot)) == JobsFor(rs, pivot.id)
  {
    if rs != [] {
      KeptJobs(rs[1..], pivot);
      var kept' := KeepResourceIfSameId(rs[1..], pivot);
      if rs[0].id == pivot.id {
        assert ([rs[0]] + kept')[1..] == kept';
      } else {
        assert KeepResourceIfSameId(rs, pivot) == kept';
        assert JobsFor(rs, pivot.id) == [] + JobsFor(rs[1..], pivot.id);
      }
    }
  }

  /** Removing the pivot's group leaves the jobs of every other ID untouched. */
  lemma {:induction false} RemovedJobs(rs: seq<Resource>, pivot: Resource, id: ResId)
    requires id != pivot.id
    ensures JobsFor(RemoveResourceIfSameId(rs, pivot), id) == JobsFor(rs, id)
  {
    if rs != [] {
      RemovedJobs(rs[1..], pivot, id);
      var rest' := RemoveResourceIfSameId(rs[1..], pivot);
      if rs[0].id != pivot.id {
        assert ([rs[0]] + rest')[1..] == rest';
      } else {
        assert RemoveResourceIfSameId(rs, pivot) == rest';
        assert JobsFor(rs, id) == [] + JobsFor(rs[1..], id);
      }
    }
  }

  // ---------------------------------------------------------------------------
  // The resource table
  // ---------------------------------------------------------------------------

  /** The table lists the input's IDs in the order of their first occurrence. */
  lemma {:induction false} TreeIdsFirstOccurrence(rs: seq<Resource>)
    ensures MakeResourceTree(rs).Ok? ==>
              Ids(MakeResourceTree(rs).value) == FirstOccurrences(Ids(rs), {})
    decreases |rs|
  {
    if rs != [] && MakeResourceTree(rs).Ok? {
      var p := rs[0];
      var kept, rest := KeepResourceIfSameId(rs, p), RemoveResourceIfSameId(rs, p);
      var tail := MakeResourceTree(rest).value;
      var out := MakeResourceTree(rs).value;
      assert Ids(out) == [p.id] + Ids(tail) by {
        TreeGroups(rs);
        TreeUnfold(rs);
        MergeResourceListSpec(kept);
        assert out[1..] == tail;
      }
      TreeIdsFirstOccurrence(rest);
      assert FirstOccurrences(Ids(rest), {}) == FirstOccurrences(Ids(rs), {})[1..] by {
        IdsOfRemoved(rs, p);
        assert Without(Ids(rs), p.id) == Without(Ids(rs[1..]), p.id);
        FirstOccurrencesWithout(Ids(rs[1..]), {}, p.id);
        assert {} + {p.id} == {p.id};
        assert Ids(rs)[1..] == Ids(rs[1..]);
      }
    }
  }

  /**
   * The table lists every ID of the input exactly once: its IDs are pairwise
   * distinct and are exactly the IDs the input holds.
   */
  lemma TreeIds(rs: seq<Resource>)
    ensures MakeResourceTree(rs).Ok? ==>
              (forall x :: x in Ids(MakeResourceTree(rs).value) <==> x in Ids(rs))
              && DistinctIds(MakeResourceTree(rs).value)
  {
    if MakeResourceTree(rs).Ok? {
      TreeIdsFirstOccurrence(rs);
      var out := MakeResourceTree(rs).value;
      var ids := Ids(out);
      forall i, j | 0 <= i < j < |out| ensures out[i].id != out[j].id {
        assert ids[i] == out[i].id && ids[j] == out[j].id;
      }
    }
  }

  /** The table has exactly as many entries as the input has distinct IDs. */
  lemma TreeSize(rs: seq<Resource>)
    ensures MakeResourceTree(rs).Ok? ==>
              |MakeResourceTree(rs).value| == |set r | r in rs :: r.id|
  {
    if MakeResourceTree(rs).Ok? {
      var out := MakeResourceTree(rs).value;
      TreeIds(rs);
      var ids := Ids(out);
      assert (set r | r in rs :: r.id) == (set x: ResId | x in ids) by {
        forall x | x in ids ensures x in (set r | r in rs :: r.id) {
          var i :| 0 <= i < |Ids(rs)| && Ids(rs)[i] == x;
          assert rs[i] in rs;
        }
        forall r | r in rs ensures r.id in ids {
          var i :| 0 <= i < |rs| && rs[i] == r;
          assert Ids(rs)[i] == r.id;
        }
      }
      DistinctCard(ids);
    }
  }

  /** The elements of a non-empty list: its head and the elements of its tail. */
  lemma ElementsOfCons(s: seq<ResId>)
    requires s != []
    ensures (set x: ResId | x in s) == {s[0]} + (set x: ResId | x in s[1..])
  {
  }

  /** A list without repeats has as many elements as the set of its elements. */
  lemma {:induction false} DistinctCard(s: seq<ResId>)
    requires forall i, j :: 0 <= i < j < |s| ==> s[i] != s[j]
    ensures |set x: ResId | x in s| == |s|
  {
    if s != [] {
      var t := s[1..];
      forall i, j | 0 <= i < j < |t| ensures t[i] != t[j] {
        assert t[i] == s[i + 1] && t[j] == s[j + 1];
      }
      DistinctCard(t);
      ElementsOfCons(s);
      forall j | 0 <= j < |t| ensures t[j] != s[0] {
        assert t[j] == s[j + 1];
      }
      var rest := set x: ResId | x in t;
      assert s[0] !in rest;
      assert (set x: ResId | x in s) == {s[0]} + rest;
      assert |{s[0]} + rest| == |rest| + 1;
      assert |s| == |t| + 1;
    } else {
      assert (set x: ResId | x in s) == {};
    }
  }

  /** Each entry of the table holds exactly the jobs the input claims on its ID, in input order. */
  lemma {:induction false} TreeJobs(rs: seq<Resource>)
    ensures MakeResourceTree(rs).Ok? ==>
              forall k :: 0 <= k < |MakeResourceTree(rs).value| ==>
                MakeResourceTree(rs).value[k].jobs == JobsFor(rs, MakeResourceTree(rs).value[k].id)
    decreases |rs|
  {
    if rs != [] && MakeResourceTree(rs).Ok? {
      var p := rs[0];
      var kept, rest := KeepResourceIfSameId(rs, p), RemoveResourceIfSameId(rs, p);
      TreeGroups(rs);
      TreeUnfold(rs);
      MergeResourceListSpec(kept);
      KeptJobs(rs, p);
      var tail := MakeResourceTree(rest).value;
      var out := MakeResourceTree(rs).value;
      TreeJobs(rest);
      TreeIds(rest);
      forall k | 0 <= k < |out| ensures out[k].jobs == JobsFor(rs, out[k].id) {
        if k > 0 {
          var e := tail[k - 1];
          assert out[k] == e;
          assert e.id in Ids(tail) by { assert Ids(tail)[k - 1] == e.id; }
          var i :| 0 <= i < |Ids(rest)| && Ids(rest)[i] == e.id;
          assert rest[i] in rest;
          RemovedJobs(rs, p, e.id);
        }
      }
    }
  }

  /** When every input claim has distinct UIDs, so does every entry of the table. */
  lemma {:induction false} TreeUidsUnique(rs: seq<Resource>)
    requires EachClaimUnique(rs)
    ensures MakeResourceTree(rs).Ok? ==> EachClaimUnique(MakeResourceTree(rs).value)
    decreases |rs|
  {
    if rs != [] && MakeResourceTree(rs).Ok? {
      var p := rs[0];
      var kept, rest := KeepResourceIfSameId(rs, p), RemoveResourceIfSameId(rs, p);
      TreeGroups(rs);
      TreeUnfold(rs);
      MergeResourceListSpec(kept);
      var merged := MergeResourceList(kept).value;
      assert kept[0] in kept;
      if |kept| >= 2 {
        assert AllJobs(kept) == kept[0].jobs + AllJobs(kept[1..]);
        UniqueUidsConcat(kept[0].jobs, AllJobs(kept[1..]));
      }
      TreeUidsUnique(rest);
      var out := MakeResourceTree(rs).value;
      assert out == [merged] + MakeResourceTree(rest).value;
    }
  }

  /** Group, merge and ID list of a group that fails only on duplicates: the group succeeds iff its jobs are unique. */
  lemma GroupMergeOk(rs: seq<Resource>)
    requires rs != [] && Claimed(rs) && EachClaimUnique(rs)
    ensures var kept := KeepResourceIfSameId(rs, rs[0]);
            MergeResourceList(kept).Ok? <==> UniqueUids(JobsFor(rs, rs[0].id))
  {
  }

  /**
   * For claims that each name at least one job and no UID twice, the table
   * builds exactly when, for every ID, the jobs claiming it have distinct UIDs.
   */
  lemma {:induction false} TreeOkIff(rs: seq<Resource>)
    requires Claimed(rs) && EachClaimUnique(rs)
    ensures MakeResourceTree(rs).Ok? <==> forall k :: 0 <= k < |rs| ==> UniqueUids(JobsFor(rs, rs[k].id))
    decreases |rs|
  {
    if rs != [] {
      var p := rs[0];
      var rest := RemoveResourceIfSameId(rs, p);
      var restOk := forall k :: 0 <= k < |rest| ==> UniqueUids(JobsFor(rs, rest[k].id));
      TreeGroups(rs);
      TreeUnfold(rs);
      GroupMergeOk(rs);
      assert MakeResourceTree(rest).Ok? <==> restOk by {
        forall k | 0 <= k < |rest| ensures rest[k].jobs != [] {
          assert rest[k] in rest;
          var i :| 0 <= i < |rs| && rs[i] == rest[k];
        }
        TreeOkIff(rest);
        forall k | 0 <= k < |rest|
          ensures UniqueUids(JobsFor(rest, rest[k].id)) == UniqueUids(JobsFor(rs, rest[k].id))
        {
          assert rest[k] in rest;
          RemovedJobs(rs, p, rest[k].id);
        }
      }
      assert (forall k :: 0 <= k < |rs| ==> UniqueUids(JobsFor(rs, rs[k].id)))
               <==> UniqueUids(JobsFor(rs, p.id)) && restOk by {
        if forall k :: 0 <= k < |rs| ==> UniqueUids(JobsFor(rs, rs[k].id)) {
          forall k | 0 <= k < |rest| ensures UniqueUids(JobsFor(rs, rest[k].id)) {
            assert rest[k] in rest;
            var i :| 0 <= i < |rs| && rs[i] == rest[k];
          }
        }
        if UniqueUids(JobsFor(rs, p.id)) && restOk {
          forall k | 0 <= k < |rs| ensures UniqueUids(JobsFor(rs, rs[k].id)) {
            if rs[k].id != p.id {
              assert rs[k] in rs;
              var i :| 0 <= i < |rest| && rest[i] == rs[k];
            }
          }
        }
      }
    }
  }

  /** For claims that each name at least one job, the only way the table fails is a duplicate job. */
  lemma {:induction false} TreeErrorIsDuplicate(rs: seq<Resource>)
    requires Claimed(rs)
    ensures MakeResourceTree(rs).Err? ==> MakeResourceTree(rs).error.DuplicateJob?
    decreases |rs|
  {
    if rs != [] && MakeResourceTree(rs).Err? {
      var p := rs[0];
      var kept, rest := KeepResourceIfSameId(rs, p), RemoveResourceIfSameId(rs, p);
      TreeGroups(rs);
      TreeUnfold(rs);
      MergeResourceListSpec(kept);
      if MergeResourceList(kept).Err? {
        forall k | 0 <= k < |kept| ensures kept[k].id == kept[0].id {
          assert kept[k] in kept;
        }
        forall k | 0 <= k < |kept[1..]| ensures kept[1..][k].jobs != [] {
          assert kept[1..][k] in kept;
          var i :| 0 <= i < |rs| && rs[i] == kept[1..][k];
        }
      } else {
        forall k | 0 <= k < |rest| ensures rest[k].jobs != [] {
          assert rest[k] in rest;
          var i :| 0 <= i < |rs| && rs[i] == rest[k];
        }
        TreeErrorIsDuplicate(rest);
      }
    }
  }

  /** A list whose IDs are already distinct is its own table: every group is a singleton, returned unchanged. */
  lemma {:induction false} DistinctIdsFixpoint(rs: seq<Resource>)
    requires DistinctIds(rs)
    ensures MakeResourceTree(rs) == Ok(rs)
    decreases |rs|
  {
    if rs != [] {
      var p := rs[0];
      var tail := rs[1..];
      forall k | 0 <= k < |tail| ensures tail[k].id != p.id {
        assert tail[k] == rs[k + 1];
      }
      assert KeepResourceIfSameId(rs, p) == [p] by {
        OtherIdsNotKept(tail, p);
        assert KeepResourceIfSameId(rs, p) == [p] + KeepResourceIfSameId(tail, p);
      }
      assert RemoveResourceIfSameId(rs, p) == tail by {
        OtherIdsNotRemoved(tail, p);
        assert RemoveResourceIfSameId(rs, p) == RemoveResourceIfSameId(tail, p);
      }
      assert MergeResourceList([p]) == Ok(p);
      forall i, j | 0 <= i < j < |tail| ensures tail[i].id != tail[j].id {
        assert tail[i] == rs[i + 1] && tail[j] == rs[j + 1];
      }
      DistinctIdsFixpoint(tail);
      TreeUnfold(rs);
      assert [p] + tail == rs;
    }
  }

  /** A list none of whose IDs is the pivot's keeps nothing for the pivot's group. */
  lemma {:induction false} OtherIdsNotKept(rs: seq<Resource>, pivot: Resource)
    requires forall k :: 0 <= k < |rs| ==> rs[k].id != pivot.id
    ensures KeepResourceIfSameId(rs, pivot) == []
  {
    if rs != [] {
      OtherIdsNotKept(rs[1..], pivot);
    }
  }

  /** A list none of whose IDs is the pivot's passes to the recursion unchanged. */
  lemma {:induction false} OtherIdsNotRemoved(rs: seq<Resource>, pivot: Resource)
    requires forall k :: 0 <= k < |rs| ==> rs[k].id != pivot.id
    ensures RemoveResourceIfSameId(rs, pivot) == rs
  {
    if rs != [] {
      OtherIdsNotRemoved(rs[1..], pivot);
      assert [rs[0]] + rs[1..] == rs;
    }
  }

  /** Building the table from a table returns it unchanged. */
  lemma TreeIdempotent(rs: seq<Resource>)
    ensures MakeResourceTree(rs).Ok? ==>
              MakeResourceTree(MakeResourceTree(rs).value) == MakeResourceTree(rs)
  {
    if MakeResourceTree(rs).Ok? {
      TreeIds(rs);
      DistinctIdsFixpoint(MakeResourceTree(rs).value);
    }
  }

  // ---------------------------------------------------------------------------
  // From jobs to the resource table
  // ---------------------------------------------------------------------------

  /**
   * The flattened claim list of a set of jobs: `job_to_resource` of each job,
   * concatenated in job order.  It stands in for the claim list that
   * `make_resource_tree_impl` is given; the code that builds that list is not
   * part of this model.
   */
  function ClaimsOf(jobs: seq<Job>): seq<Resource> {
    if jobs == [] then [] else JobToResource(jobs[0]) + ClaimsOf(jobs[1..])
  }

  /** Number of times `x` occurs in `ids`. */
  function Occurrences(ids: seq<ResId>, x: ResId): nat {
    if ids == [] then 0 else (if ids[0] == x then 1 else 0) + Occurrences(ids[1..], x)
  }

  /**
   * Every claim of a job set names exactly one job, the stripped copy of a job
   * of the set that names the claim's resource.
   */
  lemma {:induction false} ClaimsAreSingleJobs(jobs: seq<Job>)
    ensures forall c :: c in ClaimsOf(jobs) ==>
              exists n :: 0 <= n < |jobs| && c == Resource(c.id, [Stripped(jobs[n])]) && c.id in jobs[n].resources
    ensures Claimed(ClaimsOf(jobs)) && EachClaimUnique(ClaimsOf(jobs))
  {
    var claims := ClaimsOf(jobs);
    if jobs != [] {
      var a := JobToResource(jobs[0]);
      ClaimsAreSingleJobs(jobs[1..]);
      forall c | c in claims
        ensures exists n :: 0 <= n < |jobs| && c == Resource(c.id, [Stripped(jobs[n])]) && c.id in jobs[n].resources
      {
        if c in a {
          var k :| 0 <= k < |a| && a[k] == c;
          assert Ids(a)[k] == c.id;
          assert c == Resource(c.id, [Stripped(jobs[0])]) && c.id in jobs[0].resources;
        } else {
          var n :| 0 <= n < |jobs[1..]| && c == Resource(c.id, [Stripped(jobs[1..][n])]) && c.id in jobs[1..][n].resources;
          assert jobs[1..][n] == jobs[n + 1];
        }
      }
    }
    forall k | 0 <= k < |claims| ensures claims[k].jobs != [] && UniqueUids(claims[k].jobs) {
      assert claims[k] in claims;
    }
  }

  /** The jobs a claim list holds for one ID split along a concatenation of claim lists. */
  lemma {:induction false} JobsForConcat(a: seq<Resource>, b: seq<Resource>, id: ResId)
    ensures JobsFor(a + b, id) == JobsFor(a, id) + JobsFor(b, id)
  {
    if a == [] {
      assert a + b == b;
    } else {
      assert (a + b)[1..] == a[1..] + b;
      JobsForConcat(a[1..], b, id);
    }
  }

  /** A job's own claims hold its UID on `x` once per time it names `x`. */
  lemma {:induction false} OwnClaimsCount(j: Job, x: ResId)
    ensures CountUid(JobsFor(JobToResource(j), x), j.uid) == Occurrences(j.resources, x)
    decreases |j.resources|
  {
    if j.resources != [] {
      var j' := j.(resources := j.resources[1..]);
      OwnClaimsCount(j', x);
      var c := Resource(j.resources[0], [Stripped(j)]);
      assert JobToResource(j) == [c] + JobToResource(j');
      assert ([c] + JobToResource(j'))[1..] == JobToResource(j');
      CountUidConcat(if j.resources[0] == x then [Stripped(j)] else [], JobsFor(JobToResource(j'), x), j.uid);
    }
  }

  /** The claims of a whole job set hold each job's UID on `x` at least as often as the job names `x`. */
  lemma {:induction false} ClaimsCount(jobs: seq<Job>, n: nat, x: ResId)
    requires n < |jobs|
    ensures CountUid(JobsFor(ClaimsOf(jobs), x), jobs[n].uid) >= Occurrences(jobs[n].resources, x)
  {
    var u := jobs[n].uid;
    JobsForConcat(JobToResource(jobs[0]), ClaimsOf(jobs[1..]), x);
    CountUidConcat(JobsFor(JobToResource(jobs[0]), x), JobsFor(ClaimsOf(jobs[1..]), x), u);
    if n == 0 {
      OwnClaimsCount(jobs[0], x);
    } else {
      ClaimsCount(jobs[1..], n - 1, x);
    }
  }

  /** A resource named at two positions occurs at least twice. */
  lemma {:induction false} TwoPositions(ids: seq<ResId>, i: nat, i': nat)
    requires i < i' < |ids| && ids[i] == ids[i']
    ensures Occurrences(ids, ids[i]) >= 2
  {
    if i > 0 {
      TwoPositions(ids[1..], i - 1, i' - 1);
    } else {
      OccursAt(ids[1..], i' - 1);
    }
  }

  /** An element at a position occurs at least once. */
  lemma {:induction false} OccursAt(ids: seq<ResId>, i: nat)
    requires i < |ids|
    ensures Occurrences(ids, ids[i]) >= 1
  {
    if i > 0 {
      OccursAt(ids[1..], i - 1);
    }
  }

  /** In a list of distinct UIDs every UID occurs at most once. */
  lemma {:induction false} UniqueCountAtMostOne(js: seq<Job>, u: Uid)
    requires UniqueUids(js)
    ensures CountUid(js, u) <= 1
  {
    if js != [] {
      UniqueCountAtMostOne(js[1..], u);
      if js[0].uid == u {
        forall i | 0 <= i < |js[1..]| ensures js[1..][i].uid != u {
          assert js[1..][i] == js[i + 1];
        }
      }
    }
  }

  /** A job naming the same resource twice stops the build with a duplicate-job error. */
  lemma JobClaimingTwiceFails(jobs: seq<Job>, n: nat, i: nat, i': nat)
    requires n < |jobs| && i < i' < |jobs[n].resources|
    requires jobs[n].resources[i] == jobs[n].resources[i']
    ensures MakeResourceTree(ClaimsOf(jobs)).Err?
    ensures MakeResourceTree(ClaimsOf(jobs)).error.DuplicateJob?
  {
    var claims := ClaimsOf(jobs);
    var x := jobs[n].resources[i];
    ClaimsAreSingleJobs(jobs);
    TreeOkIff(claims);
    TreeErrorIsDuplicate(claims);
    TwoPositions(jobs[n].resources, i, i');
    ClaimsCount(jobs, n, x);
    if UniqueUids(JobsFor(claims, x)) {
      UniqueCountAtMostOne(JobsFor(claims, x), jobs[n].uid);
    }
    ClaimOnEveryNamedResource(jobs, n, i);
  }

  /** Every resource a job names gets a claim holding that job in the job set's claim list. */
  lemma {:induction false} ClaimOnEveryNamedResource(jobs: seq<Job>, n: nat, i: nat)
    requires n < |jobs| && i < |jobs[n].resources|
    ensures exists k :: 0 <= k < |ClaimsOf(jobs)| && ClaimsOf(jobs)[k] == Resource(jobs[n].resources[i], [Stripped(jobs[n])])
  {
    var a, b := JobToResource(jobs[0]), ClaimsOf(jobs[1..]);
    assert ClaimsOf(jobs) == a + b;
    if n == 0 {
      assert Ids(a)[i] == a[i].id;
      assert a[i] in a;
      assert (a + b)[i] == a[i];
    } else {
      ClaimOnEveryNamedResource(jobs[1..], n - 1, i);
      assert jobs[1..][n - 1] == jobs[n];
      var k :| 0 <= k < |b| && b[k] == Resource(jobs[n].resources[i], [Stripped(jobs[n])]);
      assert (a + b)[|a| + k] == b[k];
    }
  }

  // ---------------------------------------------------------------------------
  // Two worked configurations
  // ---------------------------------------------------------------------------

  /**
   * Three jobs, of which the first and third claim resource 7 and the second
   * claims nothing: the table has one entry, for resource 7, claimed by the
   * first and third job in that order.
   */
  lemma TwoJobsShareOneResource()
    ensures var j1, j2, j3 := Job(1, 1, 101, [7]), Job(2, 2, 102, []), Job(3, 3, 103, [7]);
            MakeResourceTree(ClaimsOf([j1, j2, j3])) == Ok([Resource(7, [Stripped(j1), Stripped(j3)])])
  {
    var j1, j2, j3 := Job(1, 1, 101, [7]), Job(2, 2, 102, []), Job(3, 3, 103, [7]);
    var s1, s3 := Stripped(j1), Stripped(j3);
    var c1, c3 := Resource(7, [s1]), Resource(7, [s3]);
    assert ClaimsOf([j1, j2, j3]) == [c1, c3] by {
      assert JobToResource(j1) == [c1];
      assert JobToResource(j3) == [c3];
      assert ClaimsOf([j3]) == [c3] + ClaimsOf([]);
      assert ClaimsOf([j2, j3]) == [] + ClaimsOf([j3]);
    }
    var rs := [c1, c3];
    var merged := Resource(7, [s1, s3]);
    assert KeepResourceIfSameId(rs, c1) == rs by {
      assert KeepResourceIfSameId([c3], c1) == [c3] + KeepResourceIfSameId([], c1);
      assert KeepResourceIfSameId(rs, c1) == [c1] + KeepResourceIfSameId([c3], c1);
    }
    assert RemoveResourceIfSameId(rs, c1) == [] by {
      assert RemoveResourceIfSameId([c3], c1) == [] + RemoveResourceIfSameId([], c1);
      assert RemoveResourceIfSameId(rs, c1) == [] + RemoveResourceIfSameId([c3], c1);
    }
    assert MergeResourceList(rs) == Ok(merged) by {
      assert CountUid([s1], s3.uid) == 0 by {
        assert CountUid([s1], s3.uid) == 0 + CountUid([s1][1..], s3.uid);
      }
      assert [s1] + [s3] == [s1, s3];
      assert AppendJobs(7, [s1], [s3]) == Ok(merged);
      assert MergeResourceList(rs) == RecMerge(c1, [c3]);
    }
    assert MakeResourceTree(rs) == Ok([merged]) by {
      TreeUnfold(rs);
      assert MakeResourceTree([]) == Ok([]);
      assert [merged] + [] == [merged];
    }
  }

  /** A job that names resource 7 twice stops the build with a duplicate of its own UID on resource 7. */
  lemma JobNamingResourceTwice()
    ensures MakeResourceTree(ClaimsOf([Job(1, 1, 101, [7, 7])])) == Err(DuplicateJob(7, 1))
  {
  }
}
