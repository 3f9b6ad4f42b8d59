/**
 * The entities of the resource-claim analysis: jobs, resources, the build
 * errors the analysis can raise, and the facts about job lists (UID counts,
 * UID clashes) that the merge engine relies on.
 *
 * In the C++ these are types (`Job<UID, PRIO, ISR, Res...>`,
 * `Resource<ID, Jobs...>`) and every error is a failed instantiation; here
 * they are values and every failure is an explicit `Err`.
 */
module Entities {

  /** A job's unique ID (the `unsigned` I1 of `Job<I1, I2, ISR, Res...>`). */
  type Uid = nat
  /** A job's hardware priority (the `unsigned` I2); never interpreted here. */
  type Priority = nat
  /** A resource identity (the `ID` type of `Resource<ID, Jobs...>`). */
  type ResId = nat
  /** The interrupt vector a job is bound to; opaque, only carried along. */
  type IsrBinding = nat

  /** One interrupt-driven unit of work and the resources it claims, in declaration order. */
  datatype Job = Job(uid: Uid, priority: Priority, isr: IsrBinding, resources: seq<ResId>)

  /** One shared resource and the jobs that claim it, in merge order. */
  datatype Resource = Resource(id: ResId, jobs: seq<Job>)

  /** The build-time failures of the analysis (each is a failed instantiation in the C++). */
  datatype Error =
    | /** A job UID would appear twice in one resource's claim (the `static_assert` on `count`). */
      DuplicateJob(resource: ResId, uid: Uid)
    | /** A pairwise merge of two resources with different IDs (primary `_merge_resources_impl`). */
      DifferentResources(left: ResId, right: ResId)
    | /** A pairwise merge whose right-hand resource has no job (no specialisation matches). */
      EmptyClaim(resource: ResId)
    | /** `merge_resource_list` of an empty list (no `_rec_merge_impl` can be formed). */
      EmptyResourceList

  /** The outcome of a build-time computation: a value or the error that stops the build. */
  datatype Result<+T> = Ok(value: T) | Err(error: Error) {
    predicate IsFailure() { Err? }

    function PropagateFailure<U>(): Result<U>
      requires Err?
    {
      Err(error)
    }

    function Extract(): T
      requires Ok?
    {
      value
    }
  }

  /**
   * The number of jobs in `js` whose UID is `u`: `brigand::count_if` over a job
   * list with `_compare_job_ids` bound to a job of UID `u`.
   */
  function CountUid(js: seq<Job>, u: Uid): (n: nat)
    ensures n <= |js|
    ensures n == 0 <==> forall i :: 0 <= i < |js| ==> js[i].uid != u
    ensures n > 0 <==> exists i :: 0 <= i < |js| && js[i].uid == u
  {
    if js == [] then 0
    else (if js[0].uid == u then 1 else 0) + CountUid(js[1..], u)
  }

  /** Counting UIDs distributes over concatenation. */
  lemma {:induction false} CountUidConcat(a: seq<Job>, b: seq<Job>, u: Uid)
    ensures CountUid(a + b, u) == CountUid(a, u) + CountUid(b, u)
  {
    if a == [] {
      assert a + b == b;
    } else {
      assert (a + b)[1..] == a[1..] + b;
      CountUidConcat(a[1..], b, u);
    }
  }

  /** No job at position `from` or later shares its UID with any job before it. */
  predicate ClashFreeFrom(js: seq<Job>, from: nat) {
    forall i, j :: 0 <= i < j < |js| && from <= j ==> js[i].uid != js[j].uid
  }

  /** All UIDs in `js` are pairwise distinct. */
  predicate UniqueUids(js: seq<Job>) {
    ClashFreeFrom(js, 0)
  }

  /**
   * Appending `right` to `left` introduces no repeated UID: the jobs of `right`
   * have distinct UIDs and none of them occurs in `left`.  Repeats inside
   * `left` itself are not looked at.
   */
  predicate NoClash(left: seq<Job>, right: seq<Job>) {
    ClashFreeFrom(left + right, |left|)
  }

  /** A unique list split anywhere: unique prefix, and the suffix clashes with nothing before it. */
  lemma UniqueUidsConcat(a: seq<Job>, b: seq<Job>)
    ensures UniqueUids(a + b) <==> UniqueUids(a) && NoClash(a, b)
  {
    var s := a + b;
    if UniqueUids(a) && NoClash(a, b) {
      forall i, j | 0 <= i < j < |s|
        ensures s[i].uid != s[j].uid
      {
        if j < |a| {
          assert s[i] == a[i] && s[j] == a[j];
        }
      }
    }
    if UniqueUids(s) {
      forall i, j | 0 <= i < j < |a|
        ensures a[i].uid != a[j].uid
      {
        assert s[i] == a[i] && s[j] == a[j];
      }
    }
  }

  /**
   * Appending `b + c` clashes-free is the same as appending `b` and then `c`:
   * the invariant that makes a left fold of pairwise merges equal to one merge.
   */
  lemma NoClashSplit(a: seq<Job>, b: seq<Job>, c: seq<Job>)
    ensures NoClash(a, b + c) <==> NoClash(a, b) && NoClash(a + b, c)
  {
    var s := a + b + c;
    assert a + (b + c) == s;
    var ab := a + b;
    assert forall k :: 0 <= k < |ab| ==> ab[k] == s[k];
    if NoClash(a, b) && NoClash(a + b, c) {
      forall i, j | 0 <= i < j < |s| && |a| <= j
        ensures s[i].uid != s[j].uid
      {
        if j < |ab| {
          assert s[i] == ab[i] && s[j] == ab[j];
        }
      }
    }
  }

  /** The jobs of all resources in `rs`, concatenated in list order. */
  function AllJobs(rs: seq<Resource>): seq<Job> {
    if rs == [] then [] else rs[0].jobs + AllJobs(rs[1..])
  }

  /** The IDs of the resources in `rs`, in list order. */
  function Ids(rs: seq<Resource>): (ids: seq<ResId>)
    ensures |ids| == |rs|
    ensures forall i :: 0 <= i < |rs| ==> ids[i] == rs[i].id
  {
    if rs == [] then [] else [rs[0].id] + Ids(rs[1..])
  }

  /** Every resource in `rs` has the ID `id`. */
  predicate AllHaveId(rs: seq<Resource>, id: ResId) {
    forall k :: 0 <= k < |rs| ==> rs[k].id == id
  }

  /** Every resource in `rs` is claimed by at least one job. */
  predicate Claimed(rs: seq<Resource>) {
    forall k :: 0 <= k < |rs| ==> rs[k].jobs != []
  }
}
