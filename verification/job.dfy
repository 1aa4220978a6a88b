/**
 The vocabulary shared by the three ingestion commands: the exceptions that
 cross a command's boundary, what an opaque collaborator call did, the job
 ledger's events, the collaborator calls a command makes, and the order in
 which the worker pool hands results back.

 A command run is a trace of actions: the Start record, then the
 collaborator invocations in the order the command performs them, then at
 most one more ledger record. The ledger itself is the projection of that
 trace onto its records.
 */
module Job {

  datatype Option<+T> = None | Some(value: T)

  /** Exceptions a command or one of its collaborators can raise. */
  datatype Exc =
    | ImportingError(msg: string)         // the loaders' own ImportingError
    | IntegrityError(msg: string)         // a database integrity error
    | NotFound(msg: string)               // ObjectDoesNotExist and its subclasses
    | UnpackError(got: nat)               // ValueError: `a, b = xs` where |xs| != 2
    | TypeError(msg: string)
    | OtherError(kind: string, msg: string)

  /** What `ThreadPoolExecutor(max_workers=n)` raises for n <= 0. */
  const PoolSizeError := OtherError("ValueError", "max_workers must be greater than 0")

  /** The message Python raises for `raise v` when v is no exception. */
  const NotAnException := "exceptions must derive from BaseException"

  /** What one call to an opaque collaborator did. */
  datatype Outcome<+T> = Returns(value: T) | Raises(exc: Exc)

  /** One entry of the job ledger. */
  datatype Event = Start(command: string) | Failure(description: string) | Success(description: string)
  {
    predicate Terminal() { !Start? }
  }

  /** How a command's `handle` ends: it returns, raises CommandError, or lets
      some other exception escape. */
  datatype Exit = Done | CommandError(msg: string) | Raised(exc: Exc)

  /** Identity of the organism row a lookup resolved to. */
  type OrganismId = nat

  datatype FastaRecord = FastaRecord(id: string, description: string, residues: string)

  /** Ontology graph parts: a typedef declares a relationship term, a term is
      a node, an edge is a typed relationship between two node ids. */
  datatype TypeDef = TypeDef(id: string, name: string)
  datatype Term = Term(id: string, name: string)
  datatype Edge = Edge(subject: string, relation: string, object: string)

  /** The collaborator calls the commands can make. The submissions stand for
      `pool.submit(loader.store_..., args)`. */
  datatype Call =
    | Validate(path: string)
    | RetrieveOrganism(name: string)
    | NewFeatureLoader(filename: string, source: string, organism: OrganismId)
    | NewSequenceLoader(filename: string, organism: OrganismId,
                        description: Option<string>, url: Option<string>, doi: Option<string>)
    | ReadObo(path: string)
    | NewOntologyLoader(cvName: string)
    | SubmitFeatureDbxref(feature: string, soterm: string, dbxref: string)
    | SubmitSeqRecord(record: FastaRecord, soterm: string, nosequence: bool)
    | StoreTypeDef(typedef: TypeDef)
    | StoreTerm(term: Term)
    | StoreRelationship(edge: Edge)

  datatype Action = Record(event: Event) | Invoke(call: Call)

  /** What one command run did: every command records Start first, then
      makes `calls` in order, then records at most one more ledger entry
      (`last`), and ends with `exit`. */
  datatype Run = Run(calls: seq<Call>, last: Option<Event>, exit: Exit)

  function Invokes(calls: seq<Call>): (t: seq<Action>)
  {
    seq(|calls|, i requires 0 <= i < |calls| => Invoke(calls[i]))
  }

  /** The run as one sequence of actions, in the order they happen. */
  function Trace(command: string, r: Run): seq<Action>
  {
    [Record(Start(command))] + Invokes(r.calls) + (if r.last.Some? then [Record(r.last.value)] else [])
  }

  /** The job ledger a trace leaves behind. */
  function Ledger(trace: seq<Action>): (log: seq<Event>)
    ensures |log| <= |trace|
  {
    if trace == [] then []
    else (if trace[0].Record? then [trace[0].event] else []) + Ledger(trace[1..])
  }

  /** The collaborator calls a trace makes, in order. */
  function Calls(trace: seq<Action>): (calls: seq<Call>)
    ensures |calls| <= |trace|
  {
    if trace == [] then []
    else (if trace[0].Invoke? then [trace[0].call] else []) + Calls(trace[1..])
  }

  /** A job ledger as the commands leave it: Start, then at most one
      terminal entry. A ledger of length one is a job left "started". */
  predicate WellFormedLedger(log: seq<Event>, command: string)
  {
    && 1 <= |log| <= 2
    && log[0] == Start(command)
    && (|log| == 2 ==> log[1].Terminal())
  }

  lemma {:induction false} LedgerAppend(a: seq<Action>, b: seq<Action>)
    ensures Ledger(a + b) == Ledger(a) + Ledger(b)
    decreases |a|
  {
    if a == [] {
      assert a + b == b;
    } else {
      assert (a + b)[1..] == a[1..] + b;
      LedgerAppend(a[1..], b);
      assert Ledger(a + b) == (if a[0].Record? then [a[0].event] else []) + Ledger(a[1..] + b);
    }
  }

  lemma {:induction false} CallsAppend(a: seq<Action>, b: seq<Action>)
    ensures Calls(a + b) == Calls(a) + Calls(b)
    decreases |a|
  {
    if a == [] {
      assert a + b == b;
    } else {
      assert (a + b)[1..] == a[1..] + b;
      CallsAppend(a[1..], b);
      assert Calls(a + b) == (if a[0].Invoke? then [a[0].call] else []) + Calls(a[1..] + b);
    }
  }

  lemma {:induction false} LedgerOfInvokes(calls: seq<Call>)
    ensures Ledger(Invokes(calls)) == []
    ensures Calls(Invokes(calls)) == calls
    decreases |calls|
  {
    if calls != [] {
      assert Invokes(calls)[1..] == Invokes(calls[1..]);
      LedgerOfInvokes(calls[1..]);
    }
  }

  /** The trace of a run records Start before anything else and then makes
      the run's calls; its ledger is Start followed by the run's last entry,
      and its calls are exactly the run's calls. */
  lemma TraceOfRun(command: string, r: Run)
    ensures Ledger(Trace(command, r)) == [Start(command)] + (if r.last.Some? then [r.last.value] else [])
    ensures Calls(Trace(command, r)) == r.calls
    ensures |Trace(command, r)| >= 1 + |r.calls|
    ensures Trace(command, r)[0] == Record(Start(command))
    ensures forall i | 0 <= i < |r.calls| :: Trace(command, r)[1 + i] == Invoke(r.calls[i])
  {
    var start := [Record(Start(command))];
    var tail: seq<Action> := if r.last.Some? then [Record(r.last.value)] else [];
    LedgerAppend(start, Invokes(r.calls));
    LedgerAppend(start + Invokes(r.calls), tail);
    CallsAppend(start, Invokes(r.calls));
    CallsAppend(start + Invokes(r.calls), tail);
    LedgerOfInvokes(r.calls);
    assert Ledger(start) == [Start(command)];
    assert Calls(start) == [];
  }

  /** A run whose last entry, if any, is terminal leaves a well-formed
      ledger: Start, then that entry. */
  lemma TerminatedLedger(command: string, r: Run)
    requires r.last.Some? ==> r.last.value.Terminal()
    ensures WellFormedLedger(Ledger(Trace(command, r)), command)
    ensures Ledger(Trace(command, r)) == [Start(command)] + (if r.last.Some? then [r.last.value] else [])
  {
    TraceOfRun(command, r);
  }

  /** A run whose last entry (if any) is terminal and whose first call is
      `first` leaves a well-formed ledger, with Start recorded before that
      call. */
  lemma StartsBefore(command: string, r: Run, first: Call)
    requires r.last.Some? ==> r.last.value.Terminal()
    requires |r.calls| >= 1 && r.calls[0] == first
    ensures var t := Trace(command, r);
            && WellFormedLedger(Ledger(t), command)
            && |t| >= 2 && t[0] == Record(Start(command)) && t[1] == Invoke(first)
  {
    TerminatedLedger(command, r);
    TraceOfRun(command, r);
  }

  /** What every command records on success. */
  const DoneMessage := "Done"

  /** The ledger discipline of a run: its last entry, if any, is terminal;
      it is Success("Done") exactly when the command returns normally; and
      every CommandError comes with a Failure of the same message. */
  predicate Disciplined(r: Run)
  {
    && (r.last.Some? ==> r.last.value.Terminal())
    && (r.exit.Done? <==> r.last == Some(Success(DoneMessage)))
    && (r.exit.CommandError? ==> r.last == Some(Failure(r.exit.msg)))
  }

  /** A disciplined run leaves a well-formed ledger that reads Start,
      Success("Done") exactly when the command returns, and Start,
      Failure(m) whenever it raises CommandError(m). */
  lemma DisciplinedLedger(command: string, r: Run)
    requires Disciplined(r)
    ensures WellFormedLedger(Ledger(Trace(command, r)), command)
    ensures r.exit.Done? <==> Ledger(Trace(command, r)) == [Start(command), Success(DoneMessage)]
    ensures r.exit.CommandError? ==> Ledger(Trace(command, r)) == [Start(command), Failure(r.exit.msg)]
  {
    TerminatedLedger(command, r);
  }

  /** `order` lists each of the n submitted tasks exactly once, in the order
      the pool reports them complete. */
  predicate IsCompletionOrder(order: seq<nat>, n: nat)
  {
    && |order| == n
    && (forall k | 0 <= k < |order| :: order[k] < n)
    && (forall i | 0 <= i < n :: i in order)
    && (forall j, k | 0 <= j < k < |order| :: order[j] != order[k])
  }

  /** The per-task results as the driver reads them: `results[i]` belongs to
      the i-th submission. */
  function InCompletionOrder<T>(results: seq<T>, order: seq<nat>): (s: seq<T>)
    requires forall k | 0 <= k < |order| :: order[k] < |results|
  {
    seq(|order|, k requires 0 <= k < |order| => results[order[k]])
  }

  /** Whatever the completion order, the driver sees every result: the
      outcomes it reads are exactly the outcomes of the tasks.
      `CompletionPermutes` adds that each is seen as often as it occurs. */
  lemma CompletionSeesEveryResult<T>(results: seq<T>, order: seq<nat>)
    requires IsCompletionOrder(order, |results|)
    ensures |InCompletionOrder(results, order)| == |results|
    ensures forall x :: x in InCompletionOrder(results, order) <==> x in results
  {
    CompletionPermutes(results, order);
    var s := InCompletionOrder(results, order);
    forall x
      ensures x in s <==> x in results
    {
      assert x in s <==> x in multiset(s);
      assert x in results <==> x in multiset(results);
    }
  }

  /** The results in completion order are a permutation of the task
      results: each result is read as often as it occurs. By induction on
      the number of tasks: take out the last submission, wherever it
      completed. */
  lemma {:induction false} CompletionPermutes<T>(results: seq<T>, order: seq<nat>)
    requires IsCompletionOrder(order, |results|)
    ensures multiset(InCompletionOrder(results, order)) == multiset(results)
    decreases |results|
  {
    var n := |results|;
    if n > 0 {
      assert n - 1 in order;
      var p :| 0 <= p < |order| && order[p] == n - 1;
      RemoveLast(order, n, p);
      CompletionPermutes(results[..n - 1], order[..p] + order[p + 1..]);
      CompletionStep(results, order, p);
    }
  }

  /** If the other tasks' results are seen as a permutation, so are all. */
  lemma CompletionStep<T>(results: seq<T>, order: seq<nat>, p: nat)
    requires IsCompletionOrder(order, |results|) && p < |order| && order[p] == |results| - 1
    requires IsCompletionOrder(order[..p] + order[p + 1..], |results| - 1)
    requires multiset(InCompletionOrder(results[..|results| - 1], order[..p] + order[p + 1..]))
             == multiset(results[..|results| - 1])
    ensures multiset(InCompletionOrder(results, order)) == multiset(results)
  {
    var x := results[|results| - 1];
    var s' := InCompletionOrder(results[..|results| - 1], order[..p] + order[p + 1..]);
    CompletionWithoutLast(results, order, p);
    assert s' == s'[..p] + s'[p..];
    assert results == results[..|results| - 1] + [x];
    calc {
      multiset(InCompletionOrder(results, order));
      multiset(s'[..p] + [x] + s'[p..]);
      multiset(s'[..p]) + multiset{x} + multiset(s'[p..]);
      multiset(s') + multiset{x};
      multiset(results);
    }
  }

  /** The completion-ordered results are those of the other tasks with the
      last task's result at the place it completed. */
  lemma CompletionWithoutLast<T>(results: seq<T>, order: seq<nat>, p: nat)
    requires IsCompletionOrder(order, |results|) && p < |order| && order[p] == |results| - 1
    requires IsCompletionOrder(order[..p] + order[p + 1..], |results| - 1)
    ensures var s' := InCompletionOrder(results[..|results| - 1], order[..p] + order[p + 1..]);
            InCompletionOrder(results, order) == s'[..p] + [results[|results| - 1]] + s'[p..]
  {
    var order' := order[..p] + order[p + 1..];
    var s := InCompletionOrder(results, order);
    var s' := InCompletionOrder(results[..|results| - 1], order');
    forall k | 0 <= k < |s|
      ensures s[k] == (s'[..p] + [results[|results| - 1]] + s'[p..])[k]
    {
      if k < p {
        assert order'[k] == order[k];
      } else if k > p {
        assert order'[k - 1] == order[k];
      }
    }
  }

  /** Taking the last submission out of a completion order leaves a
      completion order of the others. */
  lemma RemoveLast(order: seq<nat>, n: nat, p: nat)
    requires IsCompletionOrder(order, n) && p < |order| && order[p] == n - 1
    ensures IsCompletionOrder(order[..p] + order[p + 1..], n - 1)
  {
    var order' := order[..p] + order[p + 1..];
    assert forall k | 0 <= k < |order'| :: order'[k] == order[if k < p then k else k + 1];
    forall i | 0 <= i < n - 1
      ensures i in order'
    {
      assert i in order;
      var q :| 0 <= q < |order| && order[q] == i;
      if q < p {
        assert order'[q] == i;
      } else {
        assert order'[q - 1] == i;
      }
    }
  }
}
