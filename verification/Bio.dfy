/** The jobs of one type in bio.c: producers that add them and one worker, in steps between which the lock is free. */
module Bio {
  import opened Adlist

  datatype Job = Job(arg1: int, arg2: int, arg3: int)

  /** The worker: at the top of its loop; with a job that it has taken but not processed; done with processing. */
  datatype Worker = Looping | Taken | Processed

  class Queue {
    const jobs: List<Job>
    var pending: nat
    var worker: Worker
    var ln: Node?<Job>
    var job: Job

    /** All jobs that were created, and those that were processed, in order. */
    ghost var created: seq<Job>
    ghost var processed: seq<Job>

    ghost predicate Valid()
      reads this, jobs, jobs.nodes
    {
      && jobs.Valid() && pending == |jobs.nodes|
      && (worker != Looping ==> jobs.nodes != [] && ln == jobs.nodes[0] && job == ln.value)
      && created == processed + Values(Left())
    }

    /** The jobs that are not processed yet. */
    ghost function Left(): seq<Node<Job>>
      reads this, jobs
    {
      if worker == Processed && jobs.nodes != [] then jobs.nodes[1..] else jobs.nodes
    }

    /** bioInit, for one type */
    constructor ()
      ensures Valid() && created == [] && processed == []
    {
      jobs := new List();
      pending, worker, ln, job, created, processed := 0, Looping, null, Job(0, 0, 0), [], [];
      new;
      assert Values(jobs.nodes) == [];
    }

    /** bioCreateBackgroundJob, under the lock */
    method Create(arg1: int, arg2: int, arg3: int)
      requires Valid()
      modifies this`pending, this`created, jobs, jobs.nodes
      ensures Valid() && created == old(created) + [Job(arg1, arg2, arg3)] && processed == old(processed)
      ensures pending == old(pending) + 1 && worker == old(worker)
      ensures forall k :: 0 <= k < |jobs.nodes| ==> jobs.nodes[k] in old(jobs.nodes) || fresh(jobs.nodes[k])
    {
      hide Values, Linked;
      var j := Job(arg1, arg2, arg3);
      ghost var was, left := jobs.nodes, Left();
      jobs.AddNodeTail(j);
      pending := pending + 1;
      created := created + [j];
      AddedValues(was, jobs.nodes, left, Left(), j);
    }

    /** The worker, with the lock: it waits if there is no job, else it takes the first one and unlocks. */
    method Take()
      requires Valid() && worker == Looping
      modifies this`worker, this`ln, this`job
      ensures Valid() && processed == old(processed) && worker == if jobs.nodes == [] then Looping else Taken
    {
      if jobs.len == 0 { return; }
      ln := jobs.head;
      job := ln.value;
      worker := Taken;
    }

    /** The worker, without the lock. */
    method Process()
      requires Valid() && worker == Taken
      modifies this`worker, this`processed
      ensures Valid() && worker == Processed
      ensures processed == old(processed) + [created[|old(processed)|]]
    {
      FirstValue(jobs.nodes);
      assert created == (processed + [job]) + Values(jobs.nodes[1..]);
      processed := processed + [job];
      worker := Processed;
    }

    /** The worker, with the lock again: the node that it saved is still the first one, and goes. */
    method Finish()
      requires Valid() && worker == Processed
      modifies this`worker, this`pending, jobs, jobs.nodes
      ensures Valid() && worker == Looping && processed == old(processed) && pending == old(pending) - 1
      ensures jobs.nodes == old(jobs.nodes)[1..]
    {
      hide Values, Linked;
      WithoutFirst(jobs.nodes);
      jobs.DelNode(ln, 0);
      pending := pending - 1;
      worker := Looping;
    }

    /** bioPendingJobsOfType. When it reads 0, every job created so far has been processed. */
    method PendingJobs() returns (val: nat)
      requires Valid()
      ensures val == |jobs.nodes| && (val == 0 ==> processed == created)
      ensures val == |created| - |processed| + if worker == Processed then 1 else 0
    {
      val := pending;
      assert processed + Values([]) == processed;
    }
  }

  lemma {:induction false} WithoutFirst(nodes: seq<Node<Job>>)
    requires nodes != []
    ensures Removed(nodes, 0) == nodes[1..]
  {
  }

  lemma {:induction false} FirstValue(nodes: seq<Node<Job>>)
    requires nodes != []
    ensures Values(nodes) == [nodes[0].value] + Values(nodes[1..])
  {
  }

  lemma {:induction false} AddedValues(was: seq<Node<Job>>, nodes: seq<Node<Job>>, left: seq<Node<Job>>,
                                       left': seq<Node<Job>>, j: Job)
    requires |nodes| == |was| + 1 && nodes == Inserted(was, |was|, nodes[|was|]) && nodes[|was|].value == j
    requires (left == was && left' == nodes) || (was != [] && left == was[1..] && left' == nodes[1..])
    ensures Values(left') == Values(left) + [j]
    ensures was != [] ==> nodes[0] == was[0]
  {
  }

  // ----- any interleaving -----

  datatype Step = Creates(job: Job) | WorkerSteps | Reads

  /** What bioPendingJobsOfType returned, and what had been created and processed by then. */
  datatype Reading = Reading(val: nat, created: seq<Job>, processed: seq<Job>)

  ghost predicate Truthful(r: Reading, created: seq<Job>, processed: seq<Job>) {
    && r.created <= created && r.processed <= processed && r.processed <= r.created
    && r.val >= |r.created| - |r.processed| && (r.val == 0 ==> r.processed == r.created)
  }

  function CreatedBy(steps: seq<Step>): seq<Job> {
    if steps == [] then [] else
    var last := steps[|steps| - 1];
    CreatedBy(steps[..|steps| - 1]) + if last.Creates? then [last.job] else []
  }

  function CountReads(steps: seq<Step>): nat {
    if steps == [] then 0 else CountReads(steps[..|steps| - 1]) + if steps[|steps| - 1].Reads? then 1 else 0
  }

  ghost predicate AllTruthful(readings: seq<Reading>, q: Queue, before: seq<Job>)
    reads q
  {
    forall r <- readings :: Truthful(r, q.created, q.processed) && before <= r.created
  }

  /** Producers and the worker take their steps in any order: jobs are processed once each, in the order in which
      they were created, and a reading of 0 is only ever made when all that exist then have been processed. */
  method Interleave(q: Queue, steps: seq<Step>) returns (vals: seq<nat>, ghost readings: seq<Reading>)
    requires q.Valid()
    modifies q, q.jobs, q.jobs.nodes
    ensures q.Valid() && old(q.created) <= q.created && old(q.processed) <= q.processed <= q.created
    ensures q.created == old(q.created) + CreatedBy(steps) && |vals| == CountReads(steps)
    ensures |vals| == |readings| && forall k :: 0 <= k < |vals| ==> readings[k].val == vals[k]
    ensures AllTruthful(readings, q, old(q.created))
  {
    hide Truthful, AllTruthful, q.Valid, CreatedBy, CountReads;
    var i := 0;
    vals, readings := [], [];
    NothingRead(q, q.created, steps);
    while i < |steps|
      invariant 0 <= i <= |steps| && q.Valid() && old(q.processed) <= q.processed
      invariant forall k :: 0 <= k < |q.jobs.nodes| ==> q.jobs.nodes[k] in old(q.jobs.nodes) || fresh(q.jobs.nodes[k])
      invariant q.created == old(q.created) + CreatedBy(steps[..i]) && |vals| == CountReads(steps[..i])
      invariant |vals| == |readings| && forall k :: 0 <= k < |vals| ==> readings[k].val == vals[k]
      invariant AllTruthful(readings, q, old(q.created))
    {
      OneMoreStep(steps, i);
      vals, readings := DoStep(q, steps[i], vals, readings, old(q.created));
      i := i + 1;
    }
    assert steps[..i] == steps;
    ProcessedIsCreated(q);
  }

  lemma {:induction false} NothingRead(q: Queue, before: seq<Job>, steps: seq<Step>)
    ensures AllTruthful([], q, before) && CreatedBy(steps[..0]) == [] && CountReads(steps[..0]) == 0
  {
  }

  lemma {:induction false} OneMoreStep(steps: seq<Step>, i: nat)
    requires i < |steps|
    ensures CreatedBy(steps[..i + 1]) == CreatedBy(steps[..i]) + if steps[i].Creates? then [steps[i].job] else []
    ensures CountReads(steps[..i + 1]) == CountReads(steps[..i]) + if steps[i].Reads? then 1 else 0
  {
    assert steps[..i + 1][..i] == steps[..i];
  }

  lemma {:induction false} ProcessedIsCreated(q: Queue)
    requires q.Valid()
    ensures q.processed <= q.created
  {
  }

  /** One step, and what is read in it. */
  method DoStep(q: Queue, step: Step, vals0: seq<nat>, ghost readings0: seq<Reading>, ghost before: seq<Job>)
    returns (vals: seq<nat>, ghost readings: seq<Reading>)
    requires q.Valid() && AllTruthful(readings0, q, before) && before <= q.created
    modifies q, q.jobs, q.jobs.nodes
    ensures q.Valid() && old(q.processed) <= q.processed
    ensures q.created == old(q.created) + if step.Creates? then [step.job] else []
    ensures AllTruthful(readings, q, before)
    ensures if step.Reads? then exists val, r :: vals == vals0 + [val] && readings == readings0 + [r] && r.val == val
            else vals == vals0 && readings == readings0
    ensures forall k :: 0 <= k < |q.jobs.nodes| ==> q.jobs.nodes[k] in old(q.jobs.nodes) || fresh(q.jobs.nodes[k])
  {
    vals, readings := vals0, readings0;
    match step {
      case Creates(job) => q.Create(job.arg1, job.arg2, job.arg3);
      case WorkerSteps => WorkerStep(q);
      case Reads =>
        var val := q.PendingJobs();
        vals, readings := vals + [val], readings + [Reading(val, q.created, q.processed)];
    }
  }

  method WorkerStep(q: Queue)
    requires q.Valid()
    modifies q, q.jobs, q.jobs.nodes
    ensures q.Valid() && q.created == old(q.created) && old(q.processed) <= q.processed
    ensures forall k :: 0 <= k < |q.jobs.nodes| ==> q.jobs.nodes[k] in old(q.jobs.nodes)
  {
    match q.worker {
      case Looping => q.Take();
      case Taken => q.Process();
      case Processed => q.Finish();
    }
  }
}
