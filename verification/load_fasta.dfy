/**
 The `load_fasta` command: store every record of a FASTA file as a feature
 of the given organism.

 The command records Start, validates the file and resolves the organism,
 builds a SequenceLoader, submits one `store_biopython_seq_record` task per
 parsed record, then reads the task results in completion order and raises
 the first one that is truthy. Only a preflight ImportingError is recorded
 as a failure.
 */
module Fasta {
  import opened Job
  import opened PyStr

  const Command := "load_fasta"

  /** The command-line arguments that affect the outcome; `cpu` is the
      worker pool's size. */
  datatype Request = Request(
    file: string,
    organism: string,
    soterm: string,
    nosequence: bool,
    description: Option<string>,
    url: Option<string>,
    doi: Option<string>,
    cpu: int)

  /** What a `store_biopython_seq_record` task returned: a falsy value, an
      exception object, or any other truthy value. */
  datatype Returned = Falsy | ExceptionValue(exc: Exc) | OtherTruthy

  /** What the collaborators answer. The FASTA parser is lazy: it yields
      `records` one by one and then, if `parseError` is set, raises it
      instead of ending. `results[i]` is how the task for the i-th record
      ended; `order` is the order the pool reports the tasks done. */
  datatype World = World(
    validate: Outcome<()>,
    organism: Outcome<OrganismId>,
    loader: Outcome<()>,
    records: seq<FastaRecord>,
    parseError: Option<Exc>,
    results: seq<Outcome<Returned>>,
    order: seq<nat>)

  predicate WellFormed(w: World)
  {
    |w.results| == |w.records| && IsCompletionOrder(w.order, |w.records|)
  }

  /** The task submitted for one record. */
  function Task(record: FastaRecord, req: Request): Call
  {
    SubmitSeqRecord(record, req.soterm, req.nosequence)
  }

  /** One task per record, in the order the parser yields them. */
  function Submissions(records: seq<FastaRecord>, req: Request): (calls: seq<Call>)
    ensures |calls| == |records|
    ensures forall j | 0 <= j < |records| :: calls[j] == Task(records[j], req)
  {
    seq(|records|, j requires 0 <= j < |records| => Task(records[j], req))
  }

  /** `if task.result():` is taken when the task raised (result() re-raises)
      or returned a truthy value. */
  predicate Fatal(o: Outcome<Returned>)
  {
    o.Raises? || !o.value.Falsy?
  }

  /** The exception that escapes for a fatal result: the task's own, the
      exception object it returned, or the TypeError Python raises for
      `raise v` when v is not an exception. */
  function Raising(o: Outcome<Returned>): Exc
    requires Fatal(o)
  {
    match o
    case Raises(e) => e
    case Returns(ExceptionValue(e)) => e
    case Returns(_) => TypeError(NotAnException)
  }

  /** The result loop: the exception raised by the first fatal result in
      the stream, if there is one. */
  function Scan(stream: seq<Outcome<Returned>>): (e: Option<Exc>)
    ensures e.Some? ==> exists j | 0 <= j < |stream| :: Fatal(stream[j]) && Raising(stream[j]) == e.value
  {
    if stream == [] then None
    else if Fatal(stream[0]) then Some(Raising(stream[0]))
    else
      var e := Scan(stream[1..]);
      assert e.Some? ==> exists j | 0 <= j < |stream| :: Fatal(stream[j]) && Raising(stream[j]) == e.value by {
        if e.Some? {
          var j :| 0 <= j < |stream[1..]| && Fatal(stream[1..][j]) && Raising(stream[1..][j]) == e.value;
          assert stream[1..][j] == stream[j + 1];
        }
      }
      e
  }

  /** The results in the order the command reads them. */
  function Stream(w: World): seq<Outcome<Returned>>
    requires WellFormed(w)
  {
    InCompletionOrder(w.results, w.order)
  }

  /** The preflight `except ImportingError`: the failure is recorded and
      CommandError raised; anything else escapes unrecorded. */
  function Preflight(calls: seq<Call>, e: Exc): Run
  {
    match e
    case ImportingError(m) => Run(calls, Some(Failure(m)), CommandError(m))
    case _ => Run(calls, None, Raised(e))
  }

  /** From building the loader on, given what the result loop raises;
      `calls` are the preflight calls. */
  function Load(req: Request, w: World, scanned: Option<Exc>, calls: seq<Call>): Run
  {
    match w.loader
    case Raises(ImportingError(m)) => Run(calls, None, CommandError(m))
    case Raises(e) => Run(calls, None, Raised(e))
    case Returns(_) =>
      if req.cpu <= 0 then Run(calls, None, Raised(PoolSizeError))
      else
        var made := calls + Submissions(w.records, req);
        if w.parseError.Some? then Run(made, None, Raised(w.parseError.value))
        else if scanned.Some? then Run(made, None, Raised(scanned.value))
        else Run(made, Some(Success(DoneMessage)), Done)
  }

  /** `Command.handle`. */
  function Handle(req: Request, w: World): Run
    requires WellFormed(w)
  {
    if w.validate.Raises? then
      Preflight([Validate(req.file)], w.validate.exc)
    else if w.organism.Raises? then
      Preflight([Validate(req.file), RetrieveOrganism(req.organism)], w.organism.exc)
    else
      Load(req, w, Scan(Stream(w)), Prelude(req, w))
  }

  /** The calls made before the first submission: the loader gets the
      file's base name, the resolved organism and the optional metadata. */
  function Prelude(req: Request, w: World): seq<Call>
    requires w.organism.Returns?
  {
    [Validate(req.file), RetrieveOrganism(req.organism),
     NewSequenceLoader(Basename(req.file), w.organism.value, req.description, req.url, req.doi)]
  }

  /** Preflight, loader construction and the pool's start succeeded. */
  predicate Prepared(req: Request, w: World)
  {
    w.validate.Returns? && w.organism.Returns? && w.loader.Returns? && req.cpu > 0
  }

  /** k is the first fatal result of the stream. */
  predicate FirstFatalAt(s: seq<Outcome<Returned>>, k: nat)
  {
    k < |s| && Fatal(s[k]) && forall j | 0 <= j < k :: !Fatal(s[j])
  }

  // ---- The result loop ----------------------------------------------------

  /** The loop raises nothing exactly when no result is fatal. */
  lemma {:induction false} ScanNone(s: seq<Outcome<Returned>>)
    ensures Scan(s).None? <==> forall j | 0 <= j < |s| :: !Fatal(s[j])
    decreases |s|
  {
    if s != [] {
      ScanNone(s[1..]);
      assert forall j | 0 < j < |s| :: s[1..][j - 1] == s[j];
    }
  }

  /** The loop raises what the first fatal result raises. */
  lemma {:induction false} ScanStops(s: seq<Outcome<Returned>>, k: nat)
    requires FirstFatalAt(s, k)
    ensures Scan(s) == Some(Raising(s[k]))
    decreases k
  {
    if k > 0 {
      assert forall j | 0 < j < |s| :: s[1..][j - 1] == s[j];
      ScanStops(s[1..], k - 1);
    }
  }

  // ---- The loading stage, for any result of the loop -----------------------

  /** With the loader built, one task per record follows the preflight
      calls, in the order the parser yields the records. */
  lemma LoadSubmits(req: Request, w: World, scanned: Option<Exc>, calls: seq<Call>)
    requires w.loader.Returns? && req.cpu > 0
    ensures var made := Load(req, w, scanned, calls).calls;
            && |made| == |calls| + |w.records|
            && made[..|calls|] == calls
            && forall j | 0 <= j < |w.records| :: made[|calls| + j] == Task(w.records[j], req)
  {
    var made := calls + Submissions(w.records, req);
    assert made[..|calls|] == calls;
    forall j | 0 <= j < |w.records|
      ensures made[|calls| + j] == Task(w.records[j], req)
    {
      assert made[|calls| + j] == Submissions(w.records, req)[j];
    }
  }

  // ---- Properties of the command ------------------------------------------

  /** The ledger discipline this command keeps: at most one terminal entry,
      Success("Done") exactly when it returns, and a recorded Failure only
      together with CommandError of the same message. Unlike the other
      commands, a CommandError need not come with a Failure. */
  predicate Shaped(r: Run)
  {
    && (r.last.Some? ==> r.last.value.Terminal())
    && (r.exit.Done? <==> r.last == Some(Success(DoneMessage)))
    && (r.last.Some? && r.last.value.Failure? ==> r.exit == CommandError(r.last.value.description))
  }

  lemma PreflightShaped(calls: seq<Call>, e: Exc)
    ensures Shaped(Preflight(calls, e)) && Preflight(calls, e).calls == calls
  {
  }

  lemma LoadShaped(req: Request, w: World, scanned: Option<Exc>, calls: seq<Call>)
    ensures Shaped(Load(req, w, scanned, calls))
    ensures |Load(req, w, scanned, calls).calls| >= |calls|
    ensures Load(req, w, scanned, calls).calls[..|calls|] == calls
  {
    if w.loader.Returns? && req.cpu > 0 {
      LoadSubmits(req, w, scanned, calls);
    }
  }

  /** Every path leaves a ledger of Start and at most one terminal entry;
      Success("Done") is recorded exactly when the command returns, and a
      recorded Failure always comes with CommandError of the same message.
      The first call after recording Start is the file validation. */
  lemma LedgerShape(req: Request, w: World)
    requires WellFormed(w)
    ensures Shaped(Handle(req, w))
    ensures |Handle(req, w).calls| >= 1 && Handle(req, w).calls[0] == Validate(req.file)
    ensures var t := Trace(Command, Handle(req, w));
            && WellFormedLedger(Ledger(t), Command)
            && |t| >= 2 && t[0] == Record(Start(Command)) && t[1] == Invoke(Validate(req.file))
  {
    HandleShaped(req, w);
    StartsBefore(Command, Handle(req, w), Validate(req.file));
  }

  lemma HandleShaped(req: Request, w: World)
    requires WellFormed(w)
    ensures Shaped(Handle(req, w))
    ensures |Handle(req, w).calls| >= 1 && Handle(req, w).calls[0] == Validate(req.file)
  {
    if w.validate.Raises? {
      PreflightShaped([Validate(req.file)], w.validate.exc);
    } else if w.organism.Raises? {
      PreflightShaped([Validate(req.file), RetrieveOrganism(req.organism)], w.organism.exc);
    } else {
      var scanned := Scan(Stream(w));
      LoadShaped(req, w, scanned, Prelude(req, w));
      var made := Load(req, w, scanned, Prelude(req, w)).calls;
      assert made[0] == made[..3][0];
    }
  }

  /** A preflight ImportingError is recorded once and becomes CommandError;
      no loader is built and no task submitted. */
  lemma PreflightImportingError(req: Request, w: World, m: string)
    requires WellFormed(w)
    requires w.validate == Raises(ImportingError(m))
             || (w.validate.Returns? && w.organism == Raises(ImportingError(m)))
    ensures Handle(req, w).last == Some(Failure(m))
    ensures Handle(req, w).exit == CommandError(m)
    ensures Handle(req, w).calls
            == if w.validate.Raises? then [Validate(req.file)]
               else [Validate(req.file), RetrieveOrganism(req.organism)]
  {
  }

  /** Any other preflight exception, an IntegrityError included, escapes
      as it is and leaves the job with only its Start entry. */
  lemma PreflightOtherErrorLeaks(req: Request, w: World, e: Exc)
    requires WellFormed(w)
    requires !e.ImportingError?
    requires w.validate == Raises(e) || (w.validate.Returns? && w.organism == Raises(e))
    ensures Handle(req, w).last == None
    ensures Handle(req, w).exit == Raised(e)
  {
  }

  /** The loader is built from the file's base name, the resolved organism
      and the optional description, URL and DOI. If that raises
      ImportingError, CommandError is raised without recording a failure,
      unlike every other CommandError of the command; any other error
      escapes unrecorded too. Nothing is submitted. */
  lemma LoaderErrorUnrecorded(req: Request, w: World)
    requires WellFormed(w)
    requires w.validate.Returns? && w.organism.Returns? && w.loader.Raises?
    ensures Handle(req, w).calls
            == [Validate(req.file), RetrieveOrganism(req.organism),
                NewSequenceLoader(Basename(req.file), w.organism.value, req.description, req.url, req.doi)]
    ensures Handle(req, w).last == None
    ensures w.loader.exc.ImportingError? ==> Handle(req, w).exit == CommandError(w.loader.exc.msg)
    ensures !w.loader.exc.ImportingError? ==> Handle(req, w).exit == Raised(w.loader.exc)
  {
  }

  /** A pool size below one makes the pool's constructor raise ValueError
      after the loader is built and before the first record is read:
      nothing is submitted and the job keeps only its Start entry. */
  lemma PoolSizeRejected(req: Request, w: World)
    requires WellFormed(w)
    requires w.validate.Returns? && w.organism.Returns? && w.loader.Returns? && req.cpu <= 0
    ensures Handle(req, w).calls == Prelude(req, w)
    ensures Handle(req, w).last == None
    ensures Handle(req, w).exit == Raised(PoolSizeError)
  {
  }

  /** Once the loader is built, each parsed record gives one task, in
      input order, with the same soterm and nosequence flag; this holds
      whether or not the parser fails afterwards. */
  lemma OneTaskPerRecord(req: Request, w: World)
    requires WellFormed(w) && Prepared(req, w)
    ensures var calls := Handle(req, w).calls;
            && |calls| == 3 + |w.records|
            && calls[2] == NewSequenceLoader(Basename(req.file), w.organism.value, req.description, req.url, req.doi)
            && forall j | 0 <= j < |w.records| ::
                 calls[3 + j] == SubmitSeqRecord(w.records[j], req.soterm, req.nosequence)
  {
    LoadSubmits(req, w, Scan(Stream(w)), Prelude(req, w));
    var made := Handle(req, w).calls;
    assert made[2] == made[..3][2];
  }

  /** A parser error escapes after the records read before it were
      submitted, with nothing recorded after Start. */
  lemma ParseErrorLeaks(req: Request, w: World, e: Exc)
    requires WellFormed(w) && Prepared(req, w) && w.parseError == Some(e)
    ensures Handle(req, w).last == None
    ensures Handle(req, w).exit == Raised(e)
  {
  }

  /** The first fatal result in completion order is raised as it is (or
      as a TypeError when it is neither falsy nor an exception), and
      neither a Failure nor a Success is recorded. */
  lemma FirstTruthyRaised(req: Request, w: World, k: nat)
    requires WellFormed(w) && Prepared(req, w) && w.parseError.None?
    requires FirstFatalAt(Stream(w), k)
    ensures Handle(req, w).last == None
    ensures Handle(req, w).exit == Raised(Raising(Stream(w)[k]))
    ensures Stream(w)[k].Returns? && Stream(w)[k].value.OtherTruthy? ==>
              Handle(req, w).exit == Raised(TypeError(NotAnException))
  {
    ScanStops(Stream(w), k);
  }

  /** The job succeeds exactly when preflight and loader construction
      succeed, the whole file parses, and every task result is falsy;
      then Success("Done") is its only entry after Start. */
  lemma SucceedsIff(req: Request, w: World)
    requires WellFormed(w)
    ensures Handle(req, w).exit.Done? <==>
              && Prepared(req, w)
              && w.parseError.None?
              && (forall i | 0 <= i < |w.results| :: !Fatal(w.results[i]))
    ensures Handle(req, w).exit.Done? ==> Handle(req, w).last == Some(Success(DoneMessage))
  {
    if Prepared(req, w) && w.parseError.None? {
      var s := Stream(w);
      ScanNone(s);
      CompletionSeesEveryResult(w.results, w.order);
      if forall i | 0 <= i < |w.results| :: !Fatal(w.results[i]) {
        forall j | 0 <= j < |s| ensures !Fatal(s[j]) {
          assert s[j] in w.results;
        }
      } else {
        var i :| 0 <= i < |w.results| && Fatal(w.results[i]);
        assert w.results[i] in s;
      }
    }
  }

  /** Whatever escapes from the result loop is what some task raised or
      returned. */
  lemma RaisedComesFromATask(req: Request, w: World)
    requires WellFormed(w) && Prepared(req, w) && w.parseError.None?
    requires Handle(req, w).exit.Raised?
    ensures exists i | 0 <= i < |w.results| :: Fatal(w.results[i]) && Raising(w.results[i]) == Handle(req, w).exit.exc
  {
    var s := Stream(w);
    var j :| 0 <= j < |s| && Fatal(s[j]) && Raising(s[j]) == Handle(req, w).exit.exc;
    assert 0 <= w.order[j] < |w.results|;
    assert s[j] == w.results[w.order[j]];
  }

  /** Whether the job succeeds does not depend on the order in which the
      tasks complete. */
  lemma OutcomeIgnoresCompletionOrder(req: Request, w: World, order: seq<nat>)
    requires WellFormed(w) && IsCompletionOrder(order, |w.records|)
    ensures Handle(req, w).exit.Done? <==> Handle(req, w.(order := order)).exit.Done?
  {
    SucceedsIff(req, w);
    SucceedsIff(req, w.(order := order));
  }
}
