/**
 The `load_feature_dbxrefs` command: attach a cross-reference to each feature
 named in a two-column tab-separated file.

 The command records Start, validates the file and resolves the organism,
 builds a FeatureLoader, submits one `store_feature_dbxref` task per line,
 then reads the task results in completion order. A not-found result is
 collected and, unless not-found errors are ignored, ends the job; an
 ImportingError result always ends it.
 */
module FeatureDbxrefs {
  import opened Job
  import opened PyStr
  import opened TwoColumn

  const Command := "load_feature_dbxrefs"
  const Source := "GFF_source"

  /** The command-line arguments that affect the outcome; `cpu` is the
      worker pool's size. */
  datatype Request = Request(file: string, organism: string, soterm: string, ignoreNotFound: bool, cpu: int)

  /** What the collaborators answer. The file is read lazily: it yields
      `lines`, line endings included, one by one and then, if `readError`
      is set, raises it instead of ending (a file that cannot be opened
      or decoded). `results[i]` is how the task for the i-th line ended;
      `order` is the order the pool reports the tasks done. */
  datatype World = World(
    validate: Outcome<()>,
    organism: Outcome<OrganismId>,
    loader: Outcome<()>,
    lines: seq<string>,
    readError: Option<Exc>,
    results: seq<Outcome<()>>,
    order: seq<nat>)

  predicate WellFormed(w: World)
  {
    |w.results| == |w.lines| && IsCompletionOrder(w.order, |w.lines|)
  }

  /** A run, with the command's not-found list as it stood when the run ended. */
  datatype Report = Report(run: Run, notFound: seq<string>)

  /** A line's two names, or the ValueError its unpacking raises. */
  type Fields = Outcome<(string, string)>

  /** Each line split, in file order. Splitting is pure, so splitting every
      line up front and then submitting is the same as splitting each line
      just before its submission. */
  function Parse(lines: seq<string>): (parsed: seq<Fields>)
    ensures |parsed| == |lines|
  {
    if lines == [] then [] else [SplitLine(lines[0])] + Parse(lines[1..])
  }

  /** The task submitted for a line that split into (feature, dbxref). */
  function Task(names: (string, string), soterm: string): Call
  {
    SubmitFeatureDbxref(names.0, soterm, names.1)
  }

  datatype Submitted = Submitted(calls: seq<Call>, error: Option<Exc>)

  /** The submission loop: one task per line until a line that does not
      split into two names raises ValueError, or until the file, having
      given its lines, raises `readError` instead of ending. */
  function Submit(parsed: seq<Fields>, soterm: string, readError: Option<Exc>): (r: Submitted)
    ensures |r.calls| <= |parsed|
  {
    if parsed == [] then Submitted([], readError)
    else match parsed[0]
      case Raises(e) => Submitted([], Some(e))
      case Returns(names) =>
        var rest := Submit(parsed[1..], soterm, readError);
        Submitted([Task(names, soterm)] + rest.calls, rest.error)
  }

  /** A result that ends the job under the given not-found policy. */
  predicate Fatal(o: Outcome<()>, ignoreNotFound: bool)
  {
    o.Raises? && !(o.exc.NotFound? && ignoreNotFound)
  }

  /** The message of a not-found result, as a list of at most one. */
  function NotFoundOf(o: Outcome<()>): seq<string>
  {
    if o.Raises? && o.exc.NotFound? then [o.exc.msg] else []
  }

  /** The messages of the not-found results, in order. */
  function NotFoundMessages(s: seq<Outcome<()>>): (ms: seq<string>)
    ensures |ms| <= |s|
  {
    if s == [] then [] else NotFoundOf(s[0]) + NotFoundMessages(s[1..])
  }

  /** The collected messages are exactly the messages of the not-found
      results. */
  lemma {:induction false} NotFoundMembers(s: seq<Outcome<()>>)
    ensures forall m :: m in NotFoundMessages(s) <==> Raises(NotFound(m)) in s
    decreases |s|
  {
    if s != [] {
      NotFoundMembers(s[1..]);
      assert s == [s[0]] + s[1..];
    }
  }

  /** What a fatal result does: the failure it records, if any, and the exit. */
  function Verdict(o: Outcome<()>): (Option<string>, Exit)
    requires o.Raises?
  {
    match o.exc
    case NotFound(m) => (Some(m), CommandError(m))
    case ImportingError(m) => (Some(m), CommandError(m))
    case e => (None, Raised(e))
  }

  datatype Drained =
    | Finished(notFound: seq<string>)
    | Aborted(failure: Option<string>, exit: Exit, notFound: seq<string>)
  {
    /** A recorded failure always goes with CommandError of the same
        message; an unrecorded one escapes as something other than an
        ImportingError. */
    predicate Coherent()
    {
      Aborted? ==>
        && (failure.Some? ==> exit == CommandError(failure.value))
        && (failure.None? ==> exit.Raised? && !exit.exc.ImportingError?)
    }
  }

  /** The result loop: reads results in completion order and stops at the
      first fatal one; not-found results are collected on the way. */
  function Drain(stream: seq<Outcome<()>>, ignoreNotFound: bool, notFound: seq<string>): (d: Drained)
    ensures d.Coherent()
  {
    if stream == [] then Finished(notFound)
    else match stream[0]
      case Returns(_) => Drain(stream[1..], ignoreNotFound, notFound)
      case Raises(NotFound(m)) =>
        if ignoreNotFound then Drain(stream[1..], ignoreNotFound, notFound + [m])
        else Aborted(Some(m), CommandError(m), notFound + [m])
      case Raises(ImportingError(m)) => Aborted(Some(m), CommandError(m), notFound)
      case Raises(e) => Aborted(None, Raised(e), notFound)
  }

  /** The preflight `except` clauses: ImportingError becomes CommandError,
      IntegrityError is re-raised as ImportingError, both after recording a
      failure; anything else escapes unrecorded. */
  function Preflight(calls: seq<Call>, e: Exc): Report
  {
    match e
    case ImportingError(m) => Report(Run(calls, Some(Failure(m)), CommandError(m)), [])
    case IntegrityError(m) => Report(Run(calls, Some(Failure(m)), Raised(ImportingError(m))), [])
    case _ => Report(Run(calls, None, Raised(e)), [])
  }

  /** After the result loop: Success("Done"), or the fatal result's verdict. */
  function Conclude(calls: seq<Call>, d: Drained): Report
  {
    match d
    case Finished(notFound) => Report(Run(calls, Some(Success(DoneMessage)), Done), notFound)
    case Aborted(failure, exit, notFound) =>
      var last := if failure.Some? then Some(Failure(failure.value)) else None;
      Report(Run(calls, last, exit), notFound)
  }

  /** The results in the order the command reads them. */
  function Stream(w: World): seq<Outcome<()>>
    requires WellFormed(w)
  {
    InCompletionOrder(w.results, w.order)
  }

  /** From building the loader on, given how each line splits; `calls` are
      the preflight calls. */
  function Load(req: Request, w: World, parsed: seq<Fields>, drained: Drained, calls: seq<Call>): Report
  {
    match w.loader
    case Raises(ImportingError(m)) => Report(Run(calls, Some(Failure(m)), CommandError(m)), [])
    case Raises(e) => Report(Run(calls, None, Raised(e)), [])
    case Returns(_) =>
      if req.cpu <= 0 then Report(Run(calls, None, Raised(PoolSizeError)), [])
      else
        var submitted := Submit(parsed, req.soterm, w.readError);
        if submitted.error.Some? then
          Report(Run(calls + submitted.calls, None, Raised(submitted.error.value)), [])
        else
          Conclude(calls + submitted.calls, drained)
  }

  /** `Command.handle`. */
  function Handle(req: Request, w: World): Report
    requires WellFormed(w)
  {
    if w.validate.Raises? then
      Preflight([Validate(req.file)], w.validate.exc)
    else if w.organism.Raises? then
      Preflight([Validate(req.file), RetrieveOrganism(req.organism)], w.organism.exc)
    else
      Load(req, w, Parse(w.lines), Drain(Stream(w), req.ignoreNotFound, []), Prelude(req, w))
  }

  /** The calls made before the first submission: the loader gets the
      file's base name, the fixed source tag and the resolved organism. */
  function Prelude(req: Request, w: World): seq<Call>
    requires w.organism.Returns?
  {
    [Validate(req.file), RetrieveOrganism(req.organism),
     NewFeatureLoader(Basename(req.file), Source, w.organism.value)]
  }

  /** Preflight, loader construction and the pool's start succeeded. */
  predicate Prepared(req: Request, w: World)
  {
    w.validate.Returns? && w.organism.Returns? && w.loader.Returns? && req.cpu > 0
  }

  /** k is the first line that does not split into two names. */
  predicate FirstRejectedAt(parsed: seq<Fields>, k: nat)
  {
    k < |parsed| && parsed[k].Raises? && forall j | 0 <= j < k :: parsed[j].Returns?
  }

  /** Every line splits into two names. */
  predicate AllAccepted(parsed: seq<Fields>)
  {
    forall j | 0 <= j < |parsed| :: parsed[j].Returns?
  }

  /** k is the first result in completion order that is fatal under the policy. */
  predicate FirstFatalAt(s: seq<Outcome<()>>, ignoreNotFound: bool, k: nat)
  {
    k < |s| && Fatal(s[k], ignoreNotFound) && forall j | 0 <= j < k :: !Fatal(s[j], ignoreNotFound)
  }

  // ---- Splitting the lines ------------------------------------------------

  /** Splitting the lines up front keeps them in file order: the j-th
      outcome is the j-th line's split. */
  lemma {:induction false} ParseAt(lines: seq<string>, j: nat)
    requires j < |lines|
    ensures Parse(lines)[j] == SplitLine(lines[j])
    decreases j
  {
    var rest := lines[1..];
    var head := SplitLine(lines[0]);
    assert Parse(lines) == [head] + Parse(rest);
    if j > 0 {
      ParseAt(rest, j - 1);
      assert ([head] + Parse(rest))[j] == Parse(rest)[j - 1];
      assert rest[j - 1] == lines[j];
    }
  }

  // ---- The submission loop ------------------------------------------------

  /** With every line well formed, each line gives exactly one task, in
      file order, and nothing escapes. */
  lemma {:induction false} SubmitsEveryLine(parsed: seq<Fields>, soterm: string, readError: Option<Exc>)
    requires AllAccepted(parsed)
    ensures Submit(parsed, soterm, readError).error == readError
    ensures |Submit(parsed, soterm, readError).calls| == |parsed|
    ensures forall j | 0 <= j < |parsed| :: Submit(parsed, soterm, readError).calls[j] == Task(parsed[j].value, soterm)
    decreases |parsed|
  {
    if parsed != [] {
      var rest := Submit(parsed[1..], soterm, readError);
      SubmitsEveryLine(parsed[1..], soterm, readError);
      var made := Submit(parsed, soterm, readError).calls;
      assert made == [Task(parsed[0].value, soterm)] + rest.calls;
      forall j | 0 < j < |parsed|
        ensures made[j] == Task(parsed[j].value, soterm)
      {
        assert made[j] == rest.calls[j - 1];
        assert parsed[1..][j - 1] == parsed[j];
      }
    }
  }

  /** The first malformed line stops the loop: the lines before it each gave
      their task, and its ValueError escapes. */
  lemma {:induction false} SubmitsUpTo(parsed: seq<Fields>, soterm: string, readError: Option<Exc>, k: nat)
    requires FirstRejectedAt(parsed, k)
    ensures Submit(parsed, soterm, readError).error == Some(parsed[k].exc)
    ensures |Submit(parsed, soterm, readError).calls| == k
    ensures forall j | 0 <= j < k :: Submit(parsed, soterm, readError).calls[j] == Task(parsed[j].value, soterm)
    decreases k
  {
    if k > 0 {
      assert forall j | 0 < j < |parsed| :: parsed[1..][j - 1] == parsed[j];
      var rest := Submit(parsed[1..], soterm, readError);
      SubmitsUpTo(parsed[1..], soterm, readError, k - 1);
      var made := Submit(parsed, soterm, readError).calls;
      assert made == [Task(parsed[0].value, soterm)] + rest.calls;
      forall j | 0 < j < k
        ensures made[j] == Task(parsed[j].value, soterm)
      {
        assert made[j] == rest.calls[j - 1];
      }
    }
  }

  // ---- The result loop ----------------------------------------------------

  /** A result that is not fatal is skipped, its not-found message (if
      any) collected. */
  lemma DrainSkips(s: seq<Outcome<()>>, ignoreNotFound: bool, acc: seq<string>)
    requires s != [] && !Fatal(s[0], ignoreNotFound)
    ensures Drain(s, ignoreNotFound, acc) == Drain(s[1..], ignoreNotFound, acc + NotFoundOf(s[0]))
  {
    if s[0].Returns? {
      assert acc + NotFoundOf(s[0]) == acc;
    }
  }

  lemma MessagesOfPrefix(s: seq<Outcome<()>>, k: nat)
    requires k < |s|
    ensures NotFoundMessages(s[..k + 1]) == NotFoundOf(s[0]) + NotFoundMessages(s[1..][..k])
  {
    assert s[..k + 1][1..] == s[1..][..k];
    assert s[..k + 1][0] == s[0];
  }

  /** With no fatal result the loop runs to the end, and the not-found list
      gains every not-found message in completion order. */
  lemma {:induction false} DrainFinishes(s: seq<Outcome<()>>, ignoreNotFound: bool, acc: seq<string>)
    requires forall j | 0 <= j < |s| :: !Fatal(s[j], ignoreNotFound)
    ensures Drain(s, ignoreNotFound, acc) == Finished(acc + NotFoundMessages(s))
    decreases |s|
  {
    if s == [] {
      assert acc + [] == acc;
    } else {
      var rest := s[1..];
      assert forall j | 0 < j < |s| :: rest[j - 1] == s[j];
      DrainSkips(s, ignoreNotFound, acc);
      DrainFinishes(rest, ignoreNotFound, acc + NotFoundOf(s[0]));
      assert acc + NotFoundOf(s[0]) + NotFoundMessages(rest) == acc + (NotFoundOf(s[0]) + NotFoundMessages(rest));
    }
  }

  /** The loop stops at the first fatal result, which decides the failure
      and the exit; the not-found list then holds the not-found messages up
      to and including it. */
  lemma {:induction false} DrainStops(s: seq<Outcome<()>>, ignoreNotFound: bool, acc: seq<string>, k: nat)
    requires FirstFatalAt(s, ignoreNotFound, k)
    ensures Drain(s, ignoreNotFound, acc)
            == Aborted(Verdict(s[k]).0, Verdict(s[k]).1, acc + NotFoundMessages(s[..k + 1]))
    decreases k
  {
    if k == 0 {
      DrainStopsAtHead(s, ignoreNotFound, acc);
    } else {
      FatalLater(s, ignoreNotFound, k);
      DrainStops(s[1..], ignoreNotFound, acc + NotFoundOf(s[0]), k - 1);
      DrainStopsStep(s, ignoreNotFound, acc, k);
    }
  }

  /** One step of the loop before the first fatal result. */
  lemma DrainStopsStep(s: seq<Outcome<()>>, ignoreNotFound: bool, acc: seq<string>, k: nat)
    requires FirstFatalAt(s, ignoreNotFound, k) && k > 0
    requires Drain(s[1..], ignoreNotFound, acc + NotFoundOf(s[0]))
             == Aborted(Verdict(s[k]).0, Verdict(s[k]).1, acc + NotFoundOf(s[0]) + NotFoundMessages(s[1..][..k]))
    ensures Drain(s, ignoreNotFound, acc)
            == Aborted(Verdict(s[k]).0, Verdict(s[k]).1, acc + NotFoundMessages(s[..k + 1]))
  {
    var head := NotFoundOf(s[0]);
    DrainSkips(s, ignoreNotFound, acc);
    MessagesOfPrefix(s, k);
    assert acc + head + NotFoundMessages(s[1..][..k]) == acc + (head + NotFoundMessages(s[1..][..k]));
  }

  lemma DrainStopsAtHead(s: seq<Outcome<()>>, ignoreNotFound: bool, acc: seq<string>)
    requires FirstFatalAt(s, ignoreNotFound, 0)
    ensures Drain(s, ignoreNotFound, acc)
            == Aborted(Verdict(s[0]).0, Verdict(s[0]).1, acc + NotFoundMessages(s[..1]))
  {
    DrainFatalHead(s, ignoreNotFound, acc);
    MessagesOfPrefix(s, 0);
    assert NotFoundOf(s[0]) + NotFoundMessages(s[1..][..0]) == NotFoundOf(s[0]) by {
      assert s[1..][..0] == [];
    }
  }

  /** Past a non-fatal head, the first fatal result is one step earlier. */
  lemma FatalLater(s: seq<Outcome<()>>, ignoreNotFound: bool, k: nat)
    requires FirstFatalAt(s, ignoreNotFound, k) && k > 0
    ensures FirstFatalAt(s[1..], ignoreNotFound, k - 1) && s[1..][k - 1] == s[k]
  {
    assert forall j | 0 < j < |s| :: s[1..][j - 1] == s[j];
  }

  /** A fatal result at the head stops the loop with its verdict. */
  lemma DrainFatalHead(s: seq<Outcome<()>>, ignoreNotFound: bool, acc: seq<string>)
    requires s != [] && Fatal(s[0], ignoreNotFound)
    ensures Drain(s, ignoreNotFound, acc) == Aborted(Verdict(s[0]).0, Verdict(s[0]).1, acc + NotFoundOf(s[0]))
  {
    if !s[0].exc.NotFound? {
      assert acc + NotFoundOf(s[0]) == acc;
    }
  }

  /** When not-found errors are not ignored, a not-found result with only
      successes before it stops the loop, and its message is the only one
      collected. */
  lemma StrictDrain(s: seq<Outcome<()>>, k: nat, m: string)
    requires k < |s| && s[k] == Raises(NotFound(m))
    requires forall j | 0 <= j < k :: s[j].Returns?
    ensures Drain(s, false, []) == Aborted(Some(m), CommandError(m), [m])
  {
    assert FirstFatalAt(s, false, k);
    DrainStops(s, false, [], k);
    NoNotFoundBefore(s, k);
    assert [] + [m] == [m];
  }

  /** The result loop over a stream that holds exactly the task results:
      it finishes exactly when no result is fatal, and then its not-found
      list is exactly the messages of the not-found results. */
  lemma DrainIff(w: World, ignoreNotFound: bool)
    requires WellFormed(w)
    ensures Drain(Stream(w), ignoreNotFound, []).Finished? <==>
              forall i | 0 <= i < |w.results| :: !Fatal(w.results[i], ignoreNotFound)
    ensures Drain(Stream(w), ignoreNotFound, []).Finished? ==>
              Drain(Stream(w), ignoreNotFound, []).notFound == NotFoundMessages(Stream(w))
  {
    var s := Stream(w);
    CompletionSeesEveryResult(w.results, w.order);
    if forall i | 0 <= i < |w.results| :: !Fatal(w.results[i], ignoreNotFound) {
      forall j | 0 <= j < |s| ensures !Fatal(s[j], ignoreNotFound) {
        assert s[j] in w.results;
      }
      DrainFinishes(s, ignoreNotFound, []);
      assert [] + NotFoundMessages(s) == NotFoundMessages(s);
    } else {
      var i :| 0 <= i < |w.results| && Fatal(w.results[i], ignoreNotFound);
      assert w.results[i] in s;
      var k := FirstFatal(s, ignoreNotFound);
      DrainStops(s, ignoreNotFound, [], k);
    }
  }

  // ---- The loading stage, for any split of the lines ------------------------

  /** Every line accepted: one task per line, in file order, after the
      preflight calls; then the result loop decides. */
  lemma LoadSubmitsAll(req: Request, w: World, parsed: seq<Fields>, drained: Drained, calls: seq<Call>)
    requires w.loader.Returns? && req.cpu > 0 && AllAccepted(parsed)
    ensures var made := calls + Submit(parsed, req.soterm, w.readError).calls;
            && (w.readError.None? ==> Load(req, w, parsed, drained, calls) == Conclude(made, drained))
            && (w.readError.Some? ==>
                  Load(req, w, parsed, drained, calls) == Report(Run(made, None, Raised(w.readError.value)), []))
    ensures var made := Load(req, w, parsed, drained, calls).run.calls;
            && |made| == |calls| + |parsed|
            && made[..|calls|] == calls
            && forall j | 0 <= j < |parsed| :: made[|calls| + j] == Task(parsed[j].value, req.soterm)
  {
    SubmitsEveryLine(parsed, req.soterm, w.readError);
    var submitted := Submit(parsed, req.soterm, w.readError);
    var made := calls + submitted.calls;
    assert made[..|calls|] == calls;
    forall j | 0 <= j < |parsed|
      ensures made[|calls| + j] == Task(parsed[j].value, req.soterm)
    {
      assert made[|calls| + j] == submitted.calls[j];
    }
  }

  /** A rejected line: the tasks before it are submitted, and its error
      escapes with nothing more recorded. */
  lemma LoadStopsAt(req: Request, w: World, parsed: seq<Fields>, drained: Drained, calls: seq<Call>, k: nat)
    requires w.loader.Returns? && req.cpu > 0 && FirstRejectedAt(parsed, k)
    ensures var r := Load(req, w, parsed, drained, calls).run;
            && |r.calls| == |calls| + k
            && r.calls[..|calls|] == calls
            && (forall j | 0 <= j < k :: r.calls[|calls| + j] == Task(parsed[j].value, req.soterm))
            && r.last == None
            && r.exit == Raised(parsed[k].exc)
  {
    SubmitsUpTo(parsed, req.soterm, w.readError, k);
    var submitted := Submit(parsed, req.soterm, w.readError);
    var made := calls + submitted.calls;
    assert made[..|calls|] == calls;
    forall j | 0 <= j < k
      ensures made[|calls| + j] == Task(parsed[j].value, req.soterm)
    {
      assert made[|calls| + j] == submitted.calls[j];
    }
  }

  /** From the loader on, the run returns exactly when the loader and the
      pool start, every line is accepted and the result loop finishes. */
  lemma LoadSucceedsIff(req: Request, w: World, parsed: seq<Fields>, drained: Drained, calls: seq<Call>)
    requires drained.Coherent()
    ensures Load(req, w, parsed, drained, calls).run.exit.Done? <==>
              w.loader.Returns? && req.cpu > 0 && AllAccepted(parsed) && w.readError.None? && drained.Finished?
    ensures Load(req, w, parsed, drained, calls).run.exit.Done? ==>
              && Load(req, w, parsed, drained, calls).run.last == Some(Success(DoneMessage))
              && Load(req, w, parsed, drained, calls).notFound == drained.notFound
  {
    if w.loader.Returns? && req.cpu > 0 {
      if !AllAccepted(parsed) {
        var k := FirstRejected(parsed);
        LoadStopsAt(req, w, parsed, drained, calls, k);
      } else {
        LoadSubmitsAll(req, w, parsed, drained, calls);
      }
    }
  }

  // ---- Properties of the command ------------------------------------------

  lemma PreflightDisciplined(calls: seq<Call>, e: Exc)
    ensures Disciplined(Preflight(calls, e).run)
    ensures Preflight(calls, e).run.calls == calls
  {
  }

  lemma ConcludeDisciplined(calls: seq<Call>, d: Drained)
    requires d.Coherent()
    ensures Disciplined(Conclude(calls, d).run)
    ensures Conclude(calls, d).run.calls == calls
  {
  }

  lemma LoadDisciplined(req: Request, w: World, parsed: seq<Fields>, drained: Drained, calls: seq<Call>)
    requires drained.Coherent()
    ensures Disciplined(Load(req, w, parsed, drained, calls).run)
    ensures |Load(req, w, parsed, drained, calls).run.calls| >= |calls|
    ensures Load(req, w, parsed, drained, calls).run.calls[..|calls|] == calls
  {
    if w.loader.Returns? && req.cpu > 0 {
      var submitted := Submit(parsed, req.soterm, w.readError);
      assert (calls + submitted.calls)[..|calls|] == calls;
      if submitted.error.None? {
        ConcludeDisciplined(calls + submitted.calls, drained);
      }
    }
  }

  /** Every path keeps the ledger discipline, and the first call after
      recording Start is the file validation. */
  lemma LedgerDiscipline(req: Request, w: World)
    requires WellFormed(w)
    ensures Disciplined(Handle(req, w).run)
    ensures |Handle(req, w).run.calls| >= 1 && Handle(req, w).run.calls[0] == Validate(req.file)
    ensures var t := Trace(Command, Handle(req, w).run);
            && WellFormedLedger(Ledger(t), Command)
            && |t| >= 2 && t[0] == Record(Start(Command)) && t[1] == Invoke(Validate(req.file))
  {
    HandleDisciplined(req, w);
    StartsBefore(Command, Handle(req, w).run, Validate(req.file));
  }

  lemma HandleDisciplined(req: Request, w: World)
    requires WellFormed(w)
    ensures Disciplined(Handle(req, w).run)
    ensures |Handle(req, w).run.calls| >= 1 && Handle(req, w).run.calls[0] == Validate(req.file)
  {
    if w.validate.Raises? {
      PreflightDisciplined([Validate(req.file)], w.validate.exc);
    } else if w.organism.Raises? {
      PreflightDisciplined([Validate(req.file), RetrieveOrganism(req.organism)], w.organism.exc);
    } else {
      var drained := Drain(Stream(w), req.ignoreNotFound, []);
      LoadDisciplined(req, w, Parse(w.lines), drained, Prelude(req, w));
      var made := Load(req, w, Parse(w.lines), drained, Prelude(req, w)).run.calls;
      assert made[0] == made[..3][0];
    }
  }

  /** A preflight ImportingError is recorded once and becomes CommandError;
      no loader is built and no task submitted. */
  lemma PreflightImportingError(req: Request, w: World, m: string)
    requires WellFormed(w)
    requires w.validate == Raises(ImportingError(m))
             || (w.validate.Returns? && w.organism == Raises(ImportingError(m)))
    ensures Handle(req, w).run.last == Some(Failure(m))
    ensures Handle(req, w).run.exit == CommandError(m)
    ensures Handle(req, w).run.calls
            == if w.validate.Raises? then [Validate(req.file)]
               else [Validate(req.file), RetrieveOrganism(req.organism)]
  {
  }

  /** A preflight IntegrityError is recorded, then re-raised as an
      ImportingError rather than a CommandError. */
  lemma PreflightIntegrityError(req: Request, w: World, m: string)
    requires WellFormed(w)
    requires w.validate == Raises(IntegrityError(m))
             || (w.validate.Returns? && w.organism == Raises(IntegrityError(m)))
    ensures Handle(req, w).run.last == Some(Failure(m))
    ensures Handle(req, w).run.exit == Raised(ImportingError(m))
    ensures Handle(req, w).run.calls
            == if w.validate.Raises? then [Validate(req.file)]
               else [Validate(req.file), RetrieveOrganism(req.organism)]
  {
  }

  /** Any other preflight exception escapes as it is, with nothing recorded
      after Start. */
  lemma PreflightOtherErrorLeaks(req: Request, w: World, e: Exc)
    requires WellFormed(w)
    requires !e.ImportingError? && !e.IntegrityError?
    requires w.validate == Raises(e) || (w.validate.Returns? && w.organism == Raises(e))
    ensures Handle(req, w).run.last == None
    ensures Handle(req, w).run.exit == Raised(e)
  {
  }

  /** The loader is built from the file's base name, the fixed source tag and
      the resolved organism; if that raises ImportingError the failure is
      recorded and nothing is submitted, and any other error escapes
      unrecorded. */
  lemma LoaderConstruction(req: Request, w: World)
    requires WellFormed(w)
    requires w.validate.Returns? && w.organism.Returns?
    ensures |Handle(req, w).run.calls| >= 3
    ensures Handle(req, w).run.calls[..3]
            == [Validate(req.file), RetrieveOrganism(req.organism),
                NewFeatureLoader(Basename(req.file), Source, w.organism.value)]
    ensures w.loader.Raises? ==> |Handle(req, w).run.calls| == 3
    ensures w.loader.Raises? && w.loader.exc.ImportingError? ==>
              && Handle(req, w).run.last == Some(Failure(w.loader.exc.msg))
              && Handle(req, w).run.exit == CommandError(w.loader.exc.msg)
    ensures w.loader.Raises? && !w.loader.exc.ImportingError? ==>
              && Handle(req, w).run.last == None
              && Handle(req, w).run.exit == Raised(w.loader.exc)
  {
    LoadDisciplined(req, w, Parse(w.lines), Drain(Stream(w), req.ignoreNotFound, []), Prelude(req, w));
  }

  /** A pool size below one makes the pool's constructor raise ValueError
      after the loader is built: nothing is submitted and the job keeps only
      its Start entry. */
  lemma PoolSizeRejected(req: Request, w: World)
    requires WellFormed(w)
    requires w.validate.Returns? && w.organism.Returns? && w.loader.Returns? && req.cpu <= 0
    ensures Handle(req, w).run.calls == Prelude(req, w)
    ensures Handle(req, w).run.last == None
    ensures Handle(req, w).run.exit == Raised(PoolSizeError)
  {
  }

  /** With every line well formed, each line gives one task, in file order,
      carrying the line's split and the same soterm. */
  lemma OneTaskPerLine(req: Request, w: World)
    requires WellFormed(w) && Prepared(req, w) && AllAccepted(Parse(w.lines))
    ensures var calls := Handle(req, w).run.calls;
            && |calls| == 3 + |w.lines|
            && forall j | 0 <= j < |w.lines| :: calls[3 + j] == Task(Parse(w.lines)[j].value, req.soterm)
  {
    LoadSubmitsAll(req, w, Parse(w.lines), Drain(Stream(w), req.ignoreNotFound, []), Prelude(req, w));
  }

  /** A line that does not split into exactly two names escapes as a
      ValueError: the lines before it have their tasks, and the job is left
      with only its Start entry. */
  lemma MalformedLineLeaks(req: Request, w: World, k: nat)
    requires WellFormed(w) && Prepared(req, w) && FirstRejectedAt(Parse(w.lines), k)
    ensures var calls := Handle(req, w).run.calls;
            && |calls| == 3 + k
            && (forall j | 0 <= j < k :: calls[3 + j] == Task(Parse(w.lines)[j].value, req.soterm))
    ensures Handle(req, w).run.last == None
    ensures Handle(req, w).run.exit == Raised(Parse(w.lines)[k].exc)
  {
    LoadStopsAt(req, w, Parse(w.lines), Drain(Stream(w), req.ignoreNotFound, []), Prelude(req, w), k);
  }

  /** A file that fails to read after its listed lines escapes with that
      error once every listed line has its task; only Start is recorded and
      no result is read. */
  lemma ReadErrorLeaks(req: Request, w: World, e: Exc)
    requires WellFormed(w) && Prepared(req, w) && AllAccepted(Parse(w.lines)) && w.readError == Some(e)
    ensures var calls := Handle(req, w).run.calls;
            && |calls| == 3 + |w.lines|
            && forall j | 0 <= j < |w.lines| :: calls[3 + j] == Task(Parse(w.lines)[j].value, req.soterm)
    ensures Handle(req, w).run.last == None
    ensures Handle(req, w).run.exit == Raised(e)
    ensures Handle(req, w).notFound == []
  {
    LoadSubmitsAll(req, w, Parse(w.lines), Drain(Stream(w), req.ignoreNotFound, []), Prelude(req, w));
  }

  /** Under either not-found policy, if the first fatal result in completion
      order is an ImportingError, it is recorded once and becomes CommandError. */
  lemma ImportingErrorResultFatal(req: Request, w: World, k: nat, m: string)
    requires WellFormed(w) && Prepared(req, w) && AllAccepted(Parse(w.lines)) && w.readError.None?
    requires FirstFatalAt(Stream(w), req.ignoreNotFound, k)
    requires Stream(w)[k] == Raises(ImportingError(m))
    ensures Handle(req, w).run.last == Some(Failure(m))
    ensures Handle(req, w).run.exit == CommandError(m)
  {
    LoadSubmitsAll(req, w, Parse(w.lines), Drain(Stream(w), req.ignoreNotFound, []), Prelude(req, w));
    DrainStops(Stream(w), req.ignoreNotFound, [], k);
  }

  /** A fatal result that is neither not-found nor an ImportingError
      escapes as it is, with nothing recorded after Start. */
  lemma OtherResultErrorLeaks(req: Request, w: World, k: nat)
    requires WellFormed(w) && Prepared(req, w) && AllAccepted(Parse(w.lines)) && w.readError.None?
    requires FirstFatalAt(Stream(w), req.ignoreNotFound, k)
    requires !Stream(w)[k].exc.NotFound? && !Stream(w)[k].exc.ImportingError?
    ensures Handle(req, w).run.last == None
    ensures Handle(req, w).run.exit == Raised(Stream(w)[k].exc)
  {
    LoadSubmitsAll(req, w, Parse(w.lines), Drain(Stream(w), req.ignoreNotFound, []), Prelude(req, w));
    DrainStops(Stream(w), req.ignoreNotFound, [], k);
  }

  /** When not-found errors are not ignored, the first not-found result in
      completion order (with only successes before it) is recorded and ends
      the job; it is the only entry of the not-found list. */
  lemma StrictNotFound(req: Request, w: World, k: nat, m: string)
    requires WellFormed(w) && Prepared(req, w) && AllAccepted(Parse(w.lines)) && w.readError.None?
    requires !req.ignoreNotFound
    requires k < |Stream(w)| && Stream(w)[k] == Raises(NotFound(m))
    requires forall j | 0 <= j < k :: Stream(w)[j].Returns?
    ensures Handle(req, w).run.last == Some(Failure(m))
    ensures Handle(req, w).run.exit == CommandError(m)
    ensures Handle(req, w).notFound == [m]
  {
    LoadSubmitsAll(req, w, Parse(w.lines), Drain(Stream(w), req.ignoreNotFound, []), Prelude(req, w));
    StrictDrain(Stream(w), k, m);
  }

  /** The job succeeds exactly when preflight and loader construction
      succeed, every line splits into two names, and no result is fatal
      under the policy. Then the ledger ends with Success("Done"), and the
      not-found list holds the not-found messages in completion order:
      exactly the messages of the not-found results. */
  lemma SucceedsIff(req: Request, w: World)
    requires WellFormed(w)
    ensures Handle(req, w).run.exit.Done? <==>
              && Prepared(req, w)
              && AllAccepted(Parse(w.lines))
              && w.readError.None?
              && (forall i | 0 <= i < |w.results| :: !Fatal(w.results[i], req.ignoreNotFound))
    ensures Handle(req, w).run.exit.Done? ==>
              && Handle(req, w).run.last == Some(Success(DoneMessage))
              && Handle(req, w).notFound == NotFoundMessages(Stream(w))
              && (forall m :: m in Handle(req, w).notFound <==> Raises(NotFound(m)) in w.results)
  {
    if w.validate.Returns? && w.organism.Returns? {
      var drained := Drain(Stream(w), req.ignoreNotFound, []);
      LoadSucceedsIff(req, w, Parse(w.lines), drained, Prelude(req, w));
      DrainIff(w, req.ignoreNotFound);
      CompletionSeesEveryResult(w.results, w.order);
      NotFoundMembers(Stream(w));
    }
  }

  /** With not-found errors ignored and every result either a success or
      a not-found error, a job whose preflight, loader and lines are all
      fine leaves exactly [Start, Success("Done")] and reports every
      not-found message, in completion order. */
  lemma TolerantRunSucceeds(req: Request, w: World)
    requires WellFormed(w) && Prepared(req, w) && AllAccepted(Parse(w.lines)) && w.readError.None?
    requires req.ignoreNotFound
    requires forall i | 0 <= i < |w.results| :: w.results[i].Returns? || w.results[i].exc.NotFound?
    ensures Ledger(Trace(Command, Handle(req, w).run)) == [Start(Command), Success(DoneMessage)]
    ensures Handle(req, w).notFound == NotFoundMessages(Stream(w))
  {
    SucceedsIff(req, w);
    LedgerDiscipline(req, w);
    DisciplinedLedger(Command, Handle(req, w).run);
  }

  /** Whether the job succeeds, and which features it reports not found,
      each as often, does not depend on the order in which the tasks
      complete; only the order of the reports does. */
  lemma OutcomeIgnoresCompletionOrder(req: Request, w: World, order: seq<nat>)
    requires WellFormed(w) && IsCompletionOrder(order, |w.lines|)
    ensures var w' := w.(order := order);
            && (Handle(req, w).run.exit.Done? <==> Handle(req, w').run.exit.Done?)
            && (Handle(req, w).run.exit.Done? ==>
                  multiset(Handle(req, w).notFound) == multiset(Handle(req, w').notFound))
  {
    var w' := w.(order := order);
    SucceedsIff(req, w);
    SucceedsIff(req, w');
    if Handle(req, w).run.exit.Done? {
      CompletionPermutes(w.results, w.order);
      CompletionPermutes(w.results, order);
      NotFoundPermutes(Stream(w), Stream(w'));
    }
  }

  // ---- Helpers --------------------------------------------------------------

  lemma {:induction false} FirstRejected(parsed: seq<Fields>) returns (k: nat)
    requires !AllAccepted(parsed)
    ensures FirstRejectedAt(parsed, k)
    decreases |parsed|
  {
    if parsed[0].Raises? {
      k := 0;
    } else {
      assert forall j | 0 < j < |parsed| :: parsed[1..][j - 1] == parsed[j];
      var k' := FirstRejected(parsed[1..]);
      k := k' + 1;
    }
  }

  lemma {:induction false} FirstFatal(s: seq<Outcome<()>>, ignoreNotFound: bool) returns (k: nat)
    requires exists i | 0 <= i < |s| :: Fatal(s[i], ignoreNotFound)
    ensures FirstFatalAt(s, ignoreNotFound, k)
    decreases |s|
  {
    if Fatal(s[0], ignoreNotFound) {
      k := 0;
    } else {
      assert forall j | 0 < j < |s| :: s[1..][j - 1] == s[j];
      var k' := FirstFatal(s[1..], ignoreNotFound);
      k := k' + 1;
    }
  }

  /** Streams holding the same results, each as often, report the same
      not-found messages, each as often. */
  lemma NotFoundPermutes(a: seq<Outcome<()>>, b: seq<Outcome<()>>)
    requires multiset(a) == multiset(b)
    ensures multiset(NotFoundMessages(a)) == multiset(NotFoundMessages(b))
  {
    forall m
      ensures multiset(NotFoundMessages(a))[m] == multiset(NotFoundMessages(b))[m]
    {
      NotFoundCount(a, m);
      NotFoundCount(b, m);
    }
  }

  /** A message is reported as often as a not-found result carries it. */
  lemma {:induction false} NotFoundCount(s: seq<Outcome<()>>, m: string)
    ensures multiset(NotFoundMessages(s))[m] == multiset(s)[Raises(NotFound(m))]
    decreases |s|
  {
    if s != [] {
      var rest := s[1..];
      NotFoundCount(rest, m);
      assert multiset(s) == multiset([s[0]]) + multiset(rest) by {
        assert s == [s[0]] + rest;
      }
      assert multiset(NotFoundMessages(s)) == multiset(NotFoundOf(s[0])) + multiset(NotFoundMessages(rest));
      NotFoundOfCount(s[0], m);
    }
  }

  lemma NotFoundOfCount(o: Outcome<()>, m: string)
    ensures multiset(NotFoundOf(o))[m] == multiset([o])[Raises(NotFound(m))]
  {
    if o != Raises(NotFound(m)) {
      assert m !in NotFoundOf(o);
    }
  }

  lemma {:induction false} NoNotFoundBefore(s: seq<Outcome<()>>, k: nat)
    requires k < |s| && s[k].Raises? && s[k].exc.NotFound?
    requires forall j | 0 <= j < k :: s[j].Returns?
    ensures NotFoundMessages(s[..k + 1]) == [s[k].exc.msg]
    decreases k
  {
    if k == 0 {
      assert s[..1][1..] == [];
    } else {
      assert s[..k + 1][1..] == s[1..][..k];
      NoNotFoundBefore(s[1..], k - 1);
    }
  }
}
