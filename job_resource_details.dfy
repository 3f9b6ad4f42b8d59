/**
 * The compile-time resource-claim analysis of `rtfm::details`, as functions on
 * values: a job becomes one single-job claim per resource it names, same-ID
 * claims are merged pairwise and folded, and a resource list is grouped by ID
 * into one merged resource per distinct ID.  Each failed instantiation of the
 * C++ (a `static_assert`, or no matching specialisation) is an `Err`.
 */
module JobResourceDetails {
  import opened Entities

  // ---------------------------------------------------------------------------
  // job_to_resource
  // ---------------------------------------------------------------------------

  /** A job as carried inside a resource claim: `Job<I1, I2, ISR>`, with no resource list. */
  function Stripped(j: Job): Job {
    Job(j.uid, j.priority, j.isr, [])
  }

  /**
   * `job_to_resource_impl<Job<I1, I2, ISR, Res...>>`: one claim
   * `Resource<Res::ID, Job<I1, I2, ISR>>` per resource the job names, in the
   * order the job names them.  A job naming a resource twice yields two claims
   * on it, which the merge later rejects.
   */
  function JobToResource(j: Job): (claims: seq<Resource>)
    ensures Ids(claims) == j.resources
    ensures forall c :: c in claims ==> c.jobs == [Stripped(j)]
    decreases |j.resources|
  {
    if j.resources == [] then []
    else [Resource(j.resources[0], [Stripped(j)])] + JobToResource(j.(resources := j.resources[1..]))
  }

  // ---------------------------------------------------------------------------
  // _merge_resources_impl
  // ---------------------------------------------------------------------------

  /**
   * The same-ID specialisations of `_merge_resources_impl`: move the jobs of
   * `right` one at a time onto the end of `acc`.  Before each move the UIDs in
   * `acc` equal to the moving job's are counted, and a non-zero count is the
   * "Duplicate jobs defined" assertion.  `acc` already holds the right-hand
   * jobs moved before, so a UID repeated within `right` is caught too.  The
   * last job is the base case `Resource<ID, Jobs1...>, Resource<ID, Job>`.
   */
  function AppendJobs(id: ResId, acc: seq<Job>, right: seq<Job>): Result<Resource>
    requires right != []
    decreases |right|
  {
    var job := right[0];
    if CountUid(acc, job.uid) >= 1 then Err(DuplicateJob(id, job.uid))
    else if |right| == 1 then Ok(Resource(id, acc + [job]))
    else AppendJobs(id, acc + [job], right[1..])
  }

  /**
   * `_merge_resources_impl<L, R>`.  Only same-ID pairs whose right-hand side
   * has at least one job match a specialisation; every other pair reaches the
   * primary template, whose assertion fails ("Merging different resources are
   * not allowed").
   */
  function MergeResources(left: Resource, right: Resource): Result<Resource> {
    if left.id != right.id then Err(DifferentResources(left.id, right.id))
    else if right.jobs == [] then Err(EmptyClaim(right.id))
    else AppendJobs(left.id, left.jobs, right.jobs)
  }

  /**
   * Appending jobs succeeds exactly when no UID would repeat, yields the two job
   * lists concatenated in order, and otherwise names a UID that the
   * concatenation holds twice.
   */
  lemma {:induction false} AppendJobsSpec(id: ResId, acc: seq<Job>, right: seq<Job>)
    requires right != []
    ensures AppendJobs(id, acc, right).Ok? <==> NoClash(acc, right)
    ensures AppendJobs(id, acc, right).Ok? ==> AppendJobs(id, acc, right).value == Resource(id, acc + right)
    ensures AppendJobs(id, acc, right).Err? ==>
              var e := AppendJobs(id, acc, right).error;
              e.DuplicateJob? && e.resource == id && CountUid(acc + right, e.uid) >= 2
                && exists k :: 0 <= k < |right| && right[k].uid == e.uid
    decreases |right|
  {
    var job := right[0];
    var rest := right[1..];
    assert right == [job] + rest;
    assert acc + right == (acc + [job]) + rest;
    if CountUid(acc, job.uid) >= 1 {
      var i :| 0 <= i < |acc| && acc[i].uid == job.uid;
      assert (acc + right)[i] == acc[i] && (acc + right)[|acc|] == job;
      CountUidConcat(acc, right, job.uid);
    } else if |right| == 1 {
      assert right == [job];
    } else {
      AppendJobsSpec(id, acc + [job], rest);
      NoClashSplit(acc, [job], rest);
      if AppendJobs(id, acc, right).Err? {
        var e := AppendJobs(id, acc, right).error;
        var k :| 0 <= k < |rest| && rest[k].uid == e.uid;
        assert right[k + 1] == rest[k];
      }
    }
  }

  /**
   * A pairwise merge succeeds exactly for two same-ID resources whose
   * right-hand side is claimed and adds no repeated UID; the result keeps the
   * ID and holds the left jobs followed by the right jobs.
   */
  lemma MergeResourcesSpec(left: Resource, right: Resource)
    ensures MergeResources(left, right).Ok? <==>
              left.id == right.id && right.jobs != [] && NoClash(left.jobs, right.jobs)
    ensures MergeResources(left, right).Ok? ==>
              MergeResources(left, right).value == Resource(left.id, left.jobs + right.jobs)
              && |MergeResources(left, right).value.jobs| == |left.jobs| + |right.jobs|
    ensures left.id != right.id ==> MergeResources(left, right) == Err(DifferentResources(left.id, right.id))
    ensures left.id == right.id && right.jobs == [] ==> MergeResources(left, right) == Err(EmptyClaim(right.id))
    ensures left.id == right.id && MergeResources(left, right).Err? && right.jobs != [] ==>
              MergeResources(left, right).error.DuplicateJob?
              && MergeResources(left, right).error.resource == left.id
  {
    if left.id == right.id && right.jobs != [] {
      AppendJobsSpec(left.id, left.jobs, right.jobs);
    }
  }

  /**
   * A right-hand job whose UID is already among the left-hand jobs makes the
   * merge fail with that resource's `DuplicateJob`.
   */
  lemma MergeRejectsDuplicate(left: Resource, right: Resource, i: nat, k: nat)
    requires left.id == right.id
    requires i < |left.jobs| && k < |right.jobs| && left.jobs[i].uid == right.jobs[k].uid
    ensures MergeResources(left, right).Err?
    ensures MergeResources(left, right).error.DuplicateJob?
    ensures MergeResources(left, right).error.resource == left.id
  {
    MergeResourcesSpec(left, right);
    var s := left.jobs + right.jobs;
    assert s[i] == left.jobs[i] && s[|left.jobs| + k] == right.jobs[k];
  }

  /** A merge onto a left side with distinct UIDs keeps the UIDs distinct. */
  lemma MergeKeepsUidsUnique(left: Resource, right: Resource)
    requires UniqueUids(left.jobs)
    requires MergeResources(left, right).Ok?
    ensures UniqueUids(MergeResources(left, right).value.jobs)
  {
    MergeResourcesSpec(left, right);
    UniqueUidsConcat(left.jobs, right.jobs);
  }

  // ---------------------------------------------------------------------------
  // _rec_merge_impl / merge_resource_list
  // ---------------------------------------------------------------------------

  /**
   * `_rec_merge_impl<R1, R2, Rs...>`: merge `acc` with the first of `rest`,
   * then fold the result over the remainder.  The two-argument specialisation
   * is the last step.
   */
  function RecMerge(acc: Resource, rest: seq<Resource>): Result<Resource>
    requires rest != []
    decreases |rest|
  {
    if |rest| == 1 then MergeResources(acc, rest[0])
    else
      var merged :- MergeResources(acc, rest[0]);
      RecMerge(merged, rest[1..])
  }

  /**
   * `merge_resource_list<brigand::list<Rs...>>`: a single resource is returned
   * as it is (no check of any kind); two or more are folded; the empty list
   * forms no `_rec_merge_impl` and is an error.
   */
  function MergeResourceList(rs: seq<Resource>): Result<Resource> {
    if |rs| == 0 then Err(EmptyResourceList)
    else if |rs| == 1 then Ok(rs[0])
    else RecMerge(rs[0], rs[1..])
  }

  /**
   * The fold succeeds exactly when every folded resource has the
   * accumulator's ID and is claimed, and all folded jobs together add no
   * repeated UID; the result is one resource holding every job in order.
   * With IDs and claims in order, the only possible failure is a duplicate UID.
   */
  lemma {:induction false} RecMergeSpec(acc: Resource, rest: seq<Resource>)
    requires rest != []
    ensures RecMerge(acc, rest).Ok? <==>
              AllHaveId(rest, acc.id) && Claimed(rest) && NoClash(acc.jobs, AllJobs(rest))
    ensures RecMerge(acc, rest).Ok? ==>
              RecMerge(acc, rest).value == Resource(acc.id, acc.jobs + AllJobs(rest))
    ensures RecMerge(acc, rest).Err? && AllHaveId(rest, acc.id) && Claimed(rest) ==>
              RecMerge(acc, rest).error.DuplicateJob? && RecMerge(acc, rest).error.resource == acc.id
    decreases |rest|
  {
    var r := rest[0];
    MergeResourcesSpec(acc, r);
    assert AllJobs(rest) == r.jobs + AllJobs(rest[1..]);
    NoClashSplit(acc.jobs, r.jobs, AllJobs(rest[1..]));
    if |rest| == 1 {
      assert rest == [r];
      assert AllJobs(rest[1..]) == [];
      assert r.jobs + [] == r.jobs;
      assert acc.jobs + (r.jobs + []) == acc.jobs + r.jobs;
    } else if MergeResources(acc, r).Ok? {
      var merged := MergeResources(acc, r).value;
      assert merged.id == acc.id;
      RecMergeSpec(merged, rest[1..]);
      assert acc.jobs + AllJobs(rest) == merged.jobs + AllJobs(rest[1..]);
      if AllHaveId(rest[1..], acc.id) && Claimed(rest[1..]) {
        forall k | 0 <= k < |rest|
          ensures rest[k].id == acc.id && rest[k].jobs != []
        {
          if k > 0 { assert rest[k] == rest[1..][k - 1]; }
        }
      }
      if AllHaveId(rest, acc.id) && Claimed(rest) {
        forall k | 0 <= k < |rest[1..]|
          ensures rest[1..][k].id == acc.id && rest[1..][k].jobs != []
        {
          assert rest[1..][k] == rest[k + 1];
        }
      }
    }
  }

  /**
   * `merge_resource_list` of an ID's group: empty is an error, a singleton is
   * returned unchanged, and a longer list succeeds exactly when the fold's
   * conditions hold.  Whenever it succeeds the result carries the first
   * resource's ID and every job of the list, in order.
   */
  lemma MergeResourceListSpec(rs: seq<Resource>)
    ensures rs == [] ==> MergeResourceList(rs) == Err(EmptyResourceList)
    ensures |rs| == 1 ==> MergeResourceList(rs) == Ok(rs[0])
    ensures |rs| >= 2 ==>
              (MergeResourceList(rs).Ok? <==>
                 AllHaveId(rs, rs[0].id) && Claimed(rs[1..]) && NoClash(rs[0].jobs, AllJobs(rs[1..])))
    ensures MergeResourceList(rs).Ok? ==>
              MergeResourceList(rs).value == Resource(rs[0].id, AllJobs(rs))
    ensures |rs| >= 2 && MergeResourceList(rs).Err? && AllHaveId(rs, rs[0].id) && Claimed(rs[1..]) ==>
              MergeResourceList(rs).error.DuplicateJob? && MergeResourceList(rs).error.resource == rs[0].id
  {
    if |rs| == 1 {
      assert AllJobs(rs) == rs[0].jobs + AllJobs(rs[1..]);
      assert rs[0].jobs + [] == rs[0].jobs;
    } else if |rs| >= 2 {
      RecMergeSpec(rs[0], rs[1..]);
      if AllHaveId(rs, rs[0].id) {
        forall k | 0 <= k < |rs[1..]| ensures rs[1..][k].id == rs[0].id {
          assert rs[1..][k] == rs[k + 1];
        }
      }
      if AllHaveId(rs[1..], rs[0].id) {
        forall k | 0 <= k < |rs| ensures rs[k].id == rs[0].id {
          if k > 0 { assert rs[k] == rs[1..][k - 1]; }
        }
      }
    }
  }

  // ---------------------------------------------------------------------------
  // keep_resource_if_same_id / remove_resource_if_same_id
  // ---------------------------------------------------------------------------

  /**
   * `brigand::remove_if`: the elements of `rs` for which `drop` is false, in
   * order.  Their multiplicities are stated by `RemoveIfCounts`, their order
   * by `RemoveIfInterleaves`.
   */
  function RemoveIf(rs: seq<Resource>, drop: Resource -> bool): (kept: seq<Resource>)
    ensures |kept| <= |rs|
    ensures forall r :: r in kept <==> r in rs && !drop(r)
  {
    if rs == [] then []
    else (if drop(rs[0]) then [] else [rs[0]]) + RemoveIf(rs[1..], drop)
  }

  /** Every element `remove_if` keeps occurs as often as in the input; every dropped one not at all. */
  lemma {:induction false} RemoveIfCounts(rs: seq<Resource>, drop: Resource -> bool)
    ensures forall r :: multiset(RemoveIf(rs, drop))[r] == if drop(r) then 0 else multiset(rs)[r]
  {
    if rs != [] {
      RemoveIfCounts(rs[1..], drop);
      assert rs == [rs[0]] + rs[1..];
    }
  }

  /**
   * Filtering with a predicate and with its complement splits a list into two
   * subsequences that shuffle back into it: `remove_if` keeps the input order.
   */
  lemma {:induction false} RemoveIfInterleaves(rs: seq<Resource>, drop: Resource -> bool, keep: Resource -> bool)
    requires forall r :: keep(r) == !drop(r)
    ensures Interleaves(rs, RemoveIf(rs, drop), RemoveIf(rs, keep))
  {
    if rs != [] {
      var x := rs[0];
      var kept, removed := RemoveIf(rs, drop), RemoveIf(rs, keep);
      var kept', removed' := RemoveIf(rs[1..], drop), RemoveIf(rs[1..], keep);
      RemoveIfInterleaves(rs[1..], drop, keep);
      if drop(x) {
        assert kept == kept' && removed == [x] + removed';
        assert removed[1..] == removed';
      } else {
        assert kept == [x] + kept' && removed == removed';
        assert kept[1..] == kept';
      }
    }
  }

  /**
   * `_same_id` bound to the pivot resource.  The C++ binds the whole front
   * resource as `Lhs` and compares that type with `Rhs::ID`; the model
   * compares the pivot's ID, as the documentation of the two filters says and
   * as the unused `_same_id_two_resources` does (see `SameIdAsWritten`).
   */
  predicate SameId(pivot: Resource, r: Resource) {
    pivot.id == r.id
  }

  /** `keep_resource_if_same_id`: remove every resource whose ID differs from the pivot's. */
  function KeepResourceIfSameId(rs: seq<Resource>, pivot: Resource): seq<Resource> {
    RemoveIf(rs, r => !SameId(pivot, r))
  }

  /** `remove_resource_if_same_id`: remove every resource whose ID is the pivot's. */
  function RemoveResourceIfSameId(rs: seq<Resource>, pivot: Resource): seq<Resource> {
    RemoveIf(rs, r => SameId(pivot, r))
  }

  /** `s` is an order-preserving shuffle of `a` and `b`: each element of `s` is taken from the front of one of them. */
  predicate Interleaves(s: seq<Resource>, a: seq<Resource>, b: seq<Resource>)
    decreases |s|
  {
    if s == [] then a == [] && b == []
    else
      || (a != [] && s[0] == a[0] && Interleaves(s[1..], a[1..], b))
      || (b != [] && s[0] == b[0] && Interleaves(s[1..], a, b[1..]))
  }

  /** A shuffle keeps every element and nothing else: lengths add up and multisets add up. */
  lemma {:induction false} InterleavesCounts(s: seq<Resource>, a: seq<Resource>, b: seq<Resource>)
    requires Interleaves(s, a, b)
    ensures |a| + |b| == |s|
    ensures multiset(a) + multiset(b) == multiset(s)
    decreases |s|
  {
    if s != [] {
      assert s == [s[0]] + s[1..];
      if a != [] && s[0] == a[0] && Interleaves(s[1..], a[1..], b) {
        InterleavesCounts(s[1..], a[1..], b);
        assert a == [a[0]] + a[1..];
      } else {
        InterleavesCounts(s[1..], a, b[1..]);
        assert b == [b[0]] + b[1..];
      }
    }
  }

  /**
   * The two filters partition the list: it is an order-preserving shuffle of
   * the kept side and the removed side, the kept side holds exactly the
   * resources with the pivot's ID (with their multiplicities) and the removed
   * side exactly the others.
   */
  lemma PartitionSpec(rs: seq<Resource>, pivot: Resource)
    ensures Interleaves(rs, KeepResourceIfSameId(rs, pivot), RemoveResourceIfSameId(rs, pivot))
    ensures |KeepResourceIfSameId(rs, pivot)| + |RemoveResourceIfSameId(rs, pivot)| == |rs|
    ensures forall r :: multiset(KeepResourceIfSameId(rs, pivot))[r] == if r.id == pivot.id then multiset(rs)[r] else 0
    ensures forall r :: multiset(RemoveResourceIfSameId(rs, pivot))[r] == if r.id != pivot.id then multiset(rs)[r] else 0
  {
    var kept, removed := KeepResourceIfSameId(rs, pivot), RemoveResourceIfSameId(rs, pivot);
    RemoveIfInterleaves(rs, r => !SameId(pivot, r), r => SameId(pivot, r));
    InterleavesCounts(rs, kept, removed);
    forall r: Resource
      ensures multiset(kept)[r] == if r.id == pivot.id then multiset(rs)[r] else 0
      ensures multiset(removed)[r] == if r.id != pivot.id then multiset(rs)[r] else 0
    {
      assert (multiset(kept) + multiset(removed))[r] == multiset(rs)[r];
      if r.id == pivot.id {
        assert r !in removed;
      } else {
        assert r !in kept;
      }
    }
  }

  // ---------------------------------------------------------------------------
  // make_resource_tree_impl
  // ---------------------------------------------------------------------------

  /**
   * The termination measure of `make_resource_tree_impl`: the front resource
   * is always in its own group, first, so the list of the other IDs is
   * strictly shorter than the input.
   */
  lemma TreeTerminationMeasure(rs: seq<Resource>)
    requires rs != []
    ensures KeepResourceIfSameId(rs, rs[0]) != [] && KeepResourceIfSameId(rs, rs[0])[0] == rs[0]
    ensures |RemoveResourceIfSameId(rs, rs[0])| < |rs|
  {
  }

  /**
   * `make_resource_tree_impl<ResList>`: the empty list gives the empty list;
   * otherwise the front's ID group is merged into one resource, which is
   * followed by the tree of every other resource.
   */
  function MakeResourceTree(rs: seq<Resource>): Result<seq<Resource>>
    decreases |rs|
  {
    if rs == [] then Ok([])
    else
      var kept := KeepResourceIfSameId(rs, rs[0]);
      var rest := RemoveResourceIfSameId(rs, rs[0]);
      TreeTerminationMeasure(rs);
      var merged :- MergeResourceList(kept);
      var tail :- MakeResourceTree(rest);
      Ok([merged] + tail)
  }

  // ---------------------------------------------------------------------------
  // The ID comparison as written
  // ---------------------------------------------------------------------------

  /** The C++ types `std::is_same` compares in `_same_id` / `_different_id`: an ID type or a whole resource type. */
  datatype TypeArg = IdType(id: ResId) | ResourceType(res: Resource)

  /** `_same_id<Lhs, Rhs>` as written: is `Lhs` the very type `Rhs::ID`? */
  predicate SameIdAsWritten(lhs: TypeArg, r: Resource) {
    lhs == IdType(r.id)
  }

  /** `keep_resource_if_same_id` as written, with the front resource itself bound as `Lhs`. */
  function KeepAsWritten(rs: seq<Resource>, pivot: Resource): seq<Resource> {
    RemoveIf(rs, r => !SameIdAsWritten(ResourceType(pivot), r))
  }

  /** `remove_resource_if_same_id` as written, with the front resource itself bound as `Lhs`. */
  function RemoveAsWritten(rs: seq<Resource>, pivot: Resource): seq<Resource> {
    RemoveIf(rs, r => SameIdAsWritten(ResourceType(pivot), r))
  }

  /**
   * With the front resource bound as `Lhs`, no element is ever "the same ID":
   * the front's group is empty, so merging it fails, and the rest is the whole
   * input, so the recursion makes no progress.  Every non-empty list fails.
   */
  lemma {:induction false} AsWrittenGroupIsEmpty(rs: seq<Resource>)
    requires rs != []
    ensures KeepAsWritten(rs, rs[0]) == []
    ensures RemoveAsWritten(rs, rs[0]) == rs
    ensures MergeResourceList(KeepAsWritten(rs, rs[0])) == Err(EmptyResourceList)
  {
    var pivot := rs[0];
    AllDropped(rs, r => !SameIdAsWritten(ResourceType(pivot), r));
    NothingDropped(rs, r => SameIdAsWritten(ResourceType(pivot), r));
  }

  /** Filtering with a predicate that holds of no element returns the list unchanged. */
  lemma {:induction false} NothingDropped(rs: seq<Resource>, drop: Resource -> bool)
    requires forall k :: 0 <= k < |rs| ==> !drop(rs[k])
    ensures RemoveIf(rs, drop) == rs
  {
    if rs != [] {
      NothingDropped(rs[1..], drop);
      assert [rs[0]] + rs[1..] == rs;
    }
  }

  /** Filtering with a predicate that holds of every element returns the empty list. */
  lemma {:induction false} AllDropped(rs: seq<Resource>, drop: Resource -> bool)
    requires forall k :: 0 <= k < |rs| ==> drop(rs[k])
    ensures RemoveIf(rs, drop) == []
  {
    if rs != [] {
      AllDropped(rs[1..], drop);
    }
  }
}
