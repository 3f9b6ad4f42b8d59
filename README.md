# Resource-claim analysis of RTFM++ in Dafny

RTFM++ is a static, interrupt-driven concurrency framework for Cortex-M
microcontrollers. Jobs are interrupt handlers with fixed priorities. A job
declares the resources it touches. At build time the framework is meant to
turn these declarations into a resource table with one entry per resource,
each entry listing every job that claims the resource (as written, the code
fails on every non-empty claim list; see Findings). The scheduler derives each
resource's ceiling priority from that list. A job that claims the same
resource twice is a build error.

The C++ does this, as intended (see Findings), in
`src/rtfm/details/job_resource_details.hpp` by template metaprogramming over
type lists. This project models the same algorithm as Dafny functions over
sequences and proves what it guarantees:

- `JobToResource` (`job_to_resource_impl`) turns one job into one single-job
  claim per resource it names.
- `MergeResources` / `AppendJobs` (`_merge_resources_impl`) append the
  right-hand resource's jobs to the left-hand one's, one job at a time.
  The merge fails on a UID that is already present. This includes a UID
  appended earlier in the same merge.
- `RecMerge` / `MergeResourceList` (`_rec_merge_impl`, `merge_resource_list`)
  fold the pairwise merge over a list.
- `KeepResourceIfSameId` / `RemoveResourceIfSameId` split a list by the
  pivot's ID, both through the one filter `RemoveIf` (`brigand::remove_if`).
- `MakeResourceTree` (`make_resource_tree_impl`) merges the front's ID group
  and recurses on the other IDs.

Every failed instantiation of the C++ is an explicit `Err` of a `Result`:

- `DuplicateJob` is the `static_assert` on the UID count.
- `DifferentResources` and `EmptyClaim` are the primary
  `_merge_resources_impl`.
- `EmptyResourceList` is a `merge_resource_list` that forms no
  `_rec_merge_impl`.

Files:

- `entities.dfy` (module `Entities`): jobs, resources, errors and UID facts.
- `job_resource_details.dfy` (module `JobResourceDetails`): the operations
  and their specifications.
- `resource_tree_properties.dfy` (module `ResourceTreeProperties`): the
  properties of the resource table, and the path from a set of jobs to the
  table.

Three behaviours of the code are easy to misread, and the model keeps each:

- **Duplicate UIDs.** A merge never drops a repeated UID. A right-hand job
  whose UID is already among the accumulated jobs is a `static_assert`
  failure. This includes a job moved earlier from the same right-hand
  resource. A repeat already inside the left-hand resource is not checked.
- **Empty claims.** A claim with no job is rejected only as the right-hand
  side of a pairwise merge. A lone claim is returned unchanged. The first
  claim of a longer group is never checked: its jobs become the front of the
  merged entry even when it has no job or repeats a UID
  (`MergeResourceListSpec`).
- **Pivot.** The partition pivot is always the front of the list.

## Model

| member | source | states |
|---|---|---|
| `Entities.CountUid` | src/rtfm/details/job_resource_details.hpp:71-74 | the count of jobs with a given UID is zero exactly when no job has that UID, and positive exactly when one does |
| `JobResourceDetails.Stripped` | src/rtfm/details/job_resource_details.hpp:29 | the job as a claim carries it, `Job<I1, I2, ISR>` with no resource list; its use is specified by `JobToResource` and `ClaimsAreSingleJobs` |
| `JobResourceDetails.JobToResource` | src/rtfm/details/job_resource_details.hpp:26-30 | one claim per resource the job names, with the claims' IDs equal to the job's resource list in order; each claim holds one job with the same UID, priority and ISR and an empty resource list |
| `JobResourceDetails.AppendJobs` | src/rtfm/details/job_resource_details.hpp:68-109 | the two same-ID specialisations, moving right-hand jobs one at a time; specified by `AppendJobsSpec` |
| `JobResourceDetails.MergeResources` | src/rtfm/details/job_resource_details.hpp:52-109 | the pairwise merge, with the primary template's failures as errors; specified by `MergeResourcesSpec`, `MergeRejectsDuplicate` and `MergeKeepsUidsUnique` |
| `JobResourceDetails.AppendJobsSpec` | src/rtfm/details/job_resource_details.hpp:68-109 | moving the right-hand jobs one by one succeeds iff no UID would repeat, counting right-hand jobs moved earlier; on success the result is the left jobs followed by the right jobs; on failure it is a `DuplicateJob` whose UID is a right-hand UID that the concatenation holds at least twice |
| `JobResourceDetails.MergeResourcesSpec` | src/rtfm/details/job_resource_details.hpp:52-109 | a pairwise merge succeeds iff the IDs agree, the right side has a job and no right-hand job repeats a UID already accumulated; the result keeps the ID, holds left ++ right jobs and has the summed length; different IDs give `DifferentResources`, an empty right side `EmptyClaim`, and any other failure is a `DuplicateJob` on that ID |
| `JobResourceDetails.MergeRejectsDuplicate` | src/rtfm/details/job_resource_details.hpp:71-77 | a right-hand job whose UID is among the left jobs makes the merge fail with a `DuplicateJob` on that resource |
| `JobResourceDetails.MergeKeepsUidsUnique` | src/rtfm/details/job_resource_details.hpp:79-85 | a successful merge onto jobs with distinct UIDs yields jobs with distinct UIDs |
| `JobResourceDetails.RecMerge` | src/rtfm/details/job_resource_details.hpp:118-135 | the left fold of pairwise merges; specified by `RecMergeSpec` |
| `JobResourceDetails.MergeResourceList` | src/rtfm/details/job_resource_details.hpp:157-172 | the fold over a list, with the singleton specialisation; specified by `MergeResourceListSpec` |
| `JobResourceDetails.RecMergeSpec` | src/rtfm/details/job_resource_details.hpp:118-135 | the left fold succeeds iff every folded resource has the accumulator's ID and a job and the folded jobs add no repeated UID; the result holds the accumulator's jobs followed by all folded jobs in order; with matching IDs and claims the only failure is a `DuplicateJob` |
| `JobResourceDetails.MergeResourceListSpec` | src/rtfm/details/job_resource_details.hpp:146-172 | the empty list is `EmptyResourceList`; a singleton is returned unchanged; a longer list succeeds iff all IDs agree, every later element has a job and no later job repeats a UID already accumulated; any success carries the first ID and all jobs of the list in order |
| `JobResourceDetails.RemoveIf` | src/rtfm/details/job_resource_details.hpp:217-237 | the filter keeps exactly the elements the predicate does not drop and never lengthens the list; multiplicities and order are stated by `RemoveIfCounts` and `RemoveIfInterleaves` |
| `JobResourceDetails.RemoveIfCounts` | src/rtfm/details/job_resource_details.hpp:217-237 | the filter keeps each undropped element exactly as often as the input holds it, and no dropped element |
| `JobResourceDetails.RemoveIfInterleaves` | src/rtfm/details/job_resource_details.hpp:217-237 | filtering with a predicate and with its complement yields two lists that shuffle back into the input with their orders kept, so the filter keeps the input order |
| `JobResourceDetails.SameId` | src/rtfm/details/job_resource_details.hpp:199-200 | the intended ID comparison of the filters, the pivot's ID against each element's ID; the code as written is `SameIdAsWritten` (see Findings) |
| `JobResourceDetails.KeepResourceIfSameId` | src/rtfm/details/job_resource_details.hpp:217-223 | keeps the resources with the pivot's ID; specified by `PartitionSpec` |
| `JobResourceDetails.RemoveResourceIfSameId` | src/rtfm/details/job_resource_details.hpp:231-237 | keeps the resources whose ID differs from the pivot's; specified by `PartitionSpec` |
| `JobResourceDetails.PartitionSpec` | src/rtfm/details/job_resource_details.hpp:211-237 | keep-same-ID and remove-same-ID shuffle back into the input with their orders kept and their lengths adding up; the keep side holds exactly the elements with the pivot's ID (with multiplicity) and the remove side exactly the others |
| `JobResourceDetails.InterleavesCounts` | src/rtfm/details/job_resource_details.hpp:211-237 | an order-preserving shuffle loses and adds nothing: lengths and multisets add up |
| `JobResourceDetails.TreeTerminationMeasure` | src/rtfm/details/job_resource_details.hpp:254-261 | the front is the first element of its own group, so the list passed to the recursion is strictly shorter |
| `JobResourceDetails.SameIdAsWritten` | src/rtfm/details/job_resource_details.hpp:190-191 | `_same_id` as written, and the negation of `_different_id` (lines 208-209): is the left-hand type itself the resource's ID type; specified by `AsWrittenGroupIsEmpty` |
| `JobResourceDetails.KeepAsWritten` | src/rtfm/details/job_resource_details.hpp:217-223 | `keep_resource_if_same_id` with the whole front resource bound as the left-hand type, as at line 257; specified by `AsWrittenGroupIsEmpty` |
| `JobResourceDetails.RemoveAsWritten` | src/rtfm/details/job_resource_details.hpp:231-237 | `remove_resource_if_same_id` with the whole front resource bound as the left-hand type, as at line 258; specified by `AsWrittenGroupIsEmpty` |
| `JobResourceDetails.AsWrittenGroupIsEmpty` | src/rtfm/details/job_resource_details.hpp:254-262 | with the whole front resource compared against IDs, as written, the front's group is empty and fails to merge, and the rest is the whole input |
| `JobResourceDetails.MakeResourceTree` | src/rtfm/details/job_resource_details.hpp:254-269 | merges the front's ID group and recurses on the other IDs; specified by `TreeIdsFirstOccurrence`, `TreeJobs`, `TreeOkIff`, `TreeErrorIsDuplicate` and `TreeIdempotent` |
| `ResourceTreeProperties.FirstOccurrences` | src/rtfm/details/job_resource_details.hpp:254-269 | reference order of a table: each ID not already seen, once, with no repeats |
| `ResourceTreeProperties.TreeIdsFirstOccurrence` | src/rtfm/details/job_resource_details.hpp:254-269 | the table's IDs are the input's IDs, each once, in the order of first occurrence |
| `ResourceTreeProperties.TreeIds` | src/rtfm/details/job_resource_details.hpp:254-269 | the table's IDs are pairwise distinct and are exactly the IDs the input holds |
| `ResourceTreeProperties.TreeSize` | src/rtfm/details/job_resource_details.hpp:254-269 | the table has as many entries as the input has distinct IDs |
| `ResourceTreeProperties.TreeJobs` | src/rtfm/details/job_resource_details.hpp:257-262 | each entry's jobs are the in-order concatenation of the jobs that the input claims on that entry's ID |
| `ResourceTreeProperties.TreeUidsUnique` | src/rtfm/details/job_resource_details.hpp:254-263 | when every input claim has distinct UIDs, every table entry does |
| `ResourceTreeProperties.GroupMergeOk` | src/rtfm/details/job_resource_details.hpp:146-172 | for claimed inputs with unique UIDs, the front's group merges iff the jobs the input claims on that ID have distinct UIDs |
| `ResourceTreeProperties.TreeOkIff` | src/rtfm/details/job_resource_details.hpp:254-263 | for claimed inputs with unique UIDs, the table builds iff, for every ID, the jobs claiming it have distinct UIDs |
| `ResourceTreeProperties.TreeErrorIsDuplicate` | src/rtfm/details/job_resource_details.hpp:254-263 | when every claim has a job, a failed table is always a `DuplicateJob` |
| `ResourceTreeProperties.DistinctIdsFixpoint` | src/rtfm/details/job_resource_details.hpp:168-172 | a list whose IDs are distinct is its own table, because every group is a singleton and comes back unchanged |
| `ResourceTreeProperties.TreeIdempotent` | src/rtfm/details/job_resource_details.hpp:254-269 | building the table of a table returns it unchanged |
| `ResourceTreeProperties.ClaimsAreSingleJobs` | src/rtfm/details/job_resource_details.hpp:26-30 | every claim produced from a job set holds exactly one job, the stripped copy of a job of the set that names the claim's resource, so every claim has a job and unique UIDs |
| `ResourceTreeProperties.OwnClaimsCount` | src/rtfm/details/job_resource_details.hpp:26-30 | a job's own claims on a resource hold its UID once for each time the job names that resource |
| `ResourceTreeProperties.ClaimOnEveryNamedResource` | src/rtfm/details/job_resource_details.hpp:26-30 | every resource a job names gets a claim on that resource holding exactly that job, stripped, in the job set's claim list |
| `ResourceTreeProperties.JobClaimingTwiceFails` | src/rtfm/details/job_resource_details.hpp:97-103 | a job that names the same resource at two positions makes the table fail with a `DuplicateJob` |
| `ResourceTreeProperties.TwoJobsShareOneResource` | src/rtfm/details/job_resource_details.hpp:254-269 | jobs 1 and 3 claim resource 7 and job 2 claims nothing: the table has one entry, for resource 7, claimed by jobs 1 and 3 in that order |
| `ResourceTreeProperties.JobNamingResourceTwice` | src/rtfm/details/job_resource_details.hpp:94-103 | a job naming resource 7 twice fails with a duplicate of its own UID on resource 7 |

## Left out

- `src/rtfm/details/arm_intrinsics.hpp` is left out entirely. It holds inline
  assembly that reads and writes BASEPRI and BASEPRI_MAX, and the memory
  barriers chosen by the `__CORTEX_M` switch. That is hardware behaviour and
  memory ordering, with no logic to verify.
- The run-time critical section (enter/exit) and the ceiling-priority
  computation are not part of this model. They are not in the modelled file.
- The code that flattens every job's claims into one list is not part of this
  model. `ClaimsOf` stands in for it: the claims of each job, in job order.
- The primary templates of `job_to_resource_impl` (lines 12-16) and
  `make_resource_tree_impl` (lines 242-246) are not modelled. They fire only
  for an argument that is not a `Job`, or for other than exactly one argument,
  and Dafny's types already rule those out.
- The variadic form `merge_resource_list<Rs...>` (lines 146-150) is not
  modelled separately. Only the `brigand::list` form is used by the tree.
- The `std::conditional` else-branches (lines 83-84, 108) are not modelled.
  They are unreachable once the assertion passes. The compiler does
  instantiate them, but every failure they can raise is also raised by the
  branch that is taken, so the build outcome is the same.
- `_compare_job_ids_to_constant` (lines 48-49) is not modelled. Nothing uses it.
- `_same_id_two_resources` (lines 199-200) is unused in the code. The model
  uses it as the intended comparison in `SameId`.
- Integer widths are not modelled. UIDs, priorities and IDs are unbounded
  naturals, because the analysis only compares them for equality.
- The ISR binding is an opaque number that is carried along and never
  interpreted.
- Order independence of a merge is not stated. The code keeps declaration
  order, and so does the model (`TreeJobs` fixes the exact order).

## Findings

| source | as written | input that shows it | evidently intended | confidence | as-written member | corrected member |
|---|---|---|---|---|---|---|
| src/rtfm/details/job_resource_details.hpp:257-258 | the whole front `Resource<...>` is bound as `Lhs` of `_different_id` / `_same_id`, which compare `Lhs` itself with `Rhs::ID`, so no element ever counts as the same ID | any non-empty claim list, e.g. one claim `Resource(7, [job 1])`: the front's group is empty and `merge_resource_list` of it fails, while the rest is the input again, so the recursion makes no progress | compare the front's ID with each element's ID, as the filters' documentation and `_same_id_two_resources` (lines 199-200) say; with that comparison the recursion terminates (`TreeTerminationMeasure`) and builds one entry per ID in first-occurrence order holding that ID's jobs (`TreeIdsFirstOccurrence`, `TreeJobs`) | medium, not executed | `JobResourceDetails.AsWrittenGroupIsEmpty` | `JobResourceDetails.MakeResourceTree` |
