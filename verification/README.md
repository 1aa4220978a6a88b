# machado ingestion command drivers, in Dafny

This project models the driver logic of three machado management commands:

- `load_feature_dbxrefs` attaches a cross-reference to each feature named in a two-column tab-separated file.
- `load_fasta` stores the records of a FASTA file.
- `load_relations_ontology` stores the relationship typedefs of an OBO file.

Each command does the same things in order:

1. It records a job Start in the History ledger.
2. It validates the file and, for the first two commands, resolves the organism.
3. It builds a loader.
4. It hands one unit of work per input record to the loader. The first two commands do this through a thread pool; the third stores each record directly.
5. It reads the outcomes and decides the job's fate from its error policy.
6. On most paths it records one terminal ledger entry (Failure or Success); on some it records none.

## How the model is built

- **Collaborators are oracles.** The file validator, the organism lookup, the loaders, the FASTA and OBO parsers, and each task are answers fixed in a per-command `World` record. Each answer is an `Outcome`: it returns a value or raises an exception.
- **A run is a pure function.** `Handle(req, w)` gives a `Run`, which holds three things:
  - the collaborator calls made, in order;
  - the ledger entry recorded after Start, if any;
  - how `handle` ends: it returns, raises `CommandError(m)`, or lets an exception escape.
- **Runs become traces.** `Job.Trace` turns a run into a sequence of actions: the Start record, then the invocations in order, then at most one more ledger record. `Job.Ledger` projects that trace onto the ledger.
- **The thread pool is a completion order.** The pool is replaced by the per-task results, indexed by submission, together with an arbitrary completion order. The order is a permutation of the submissions, and every property is quantified over it.
- **The line splitter follows Python exactly.** `line.strip().split("\t")` is modelled with Python's semantics in `PyStr`, followed by the two-name unpack in `TwoColumn`:
  - `strip` removes Unicode whitespace, including tabs;
  - `split` keeps empty fields;
  - the unpack raises ValueError unless there are exactly two fields.
- **Feature-dbxref lines are split up front.** The model splits every line first and then submits. Splitting is pure, so this gives the same calls and the same first error as splitting each line just before its submission.
- **The result loop is computed once.** In `load_feature_dbxrefs` and `load_fasta`, `Handle` computes the loop's outcome over the completion-ordered results and passes it to `Load`. The loop is only reached when every line was submitted, so this does not change what any run does.

`History` receives `failure` or `success` on most paths, but not on all of them, and the model follows the code:

- An exception that no `except` clause names escapes and leaves the job with only its Start entry. This includes the ValueError the thread pool's constructor raises for a pool size below one.
- In `load_fasta`, an ImportingError from the SequenceLoader constructor raises CommandError without recording a Failure.
- `FeatureDbxrefs.MalformedLineLeaks`, `Fasta.LoaderErrorUnrecorded`, `Fasta.FirstTruthyRaised` and `RelationsOntology.StoreErrorLeaks` state these paths precisely.

## Model

| member | source | states |
|---|---|---|
| Job.TraceOfRun | machado/management/commands/load_feature_dbxrefs.py:68-69 | A run's trace starts with the Start record, and its calls follow in order. Its ledger is Start plus the run's last entry, and its calls are exactly the run's calls. |
| Job.TerminatedLedger | machado/management/commands/load_fasta.py:75-121 | A run whose last entry is terminal leaves a ledger of Start followed by at most one terminal entry. |
| Job.DisciplinedLedger | machado/management/commands/load_feature_dbxrefs.py:68-129 | A disciplined run leaves exactly [Start, Success("Done")] when it returns, and exactly [Start, Failure(m)] when it raises CommandError(m). |
| Job.CompletionSeesEveryResult | machado/management/commands/load_feature_dbxrefs.py:111 | Whatever the completion order, `as_completed` yields every task's result, and nothing else. |
| Job.CompletionPermutes | machado/management/commands/load_feature_dbxrefs.py:111 | Whatever the completion order, `as_completed` yields a permutation of the task results: each result as often as it occurs. |
| PyStr.Strip | machado/management/commands/load_feature_dbxrefs.py:101 | `str.strip()` returns no whitespace at either end, and returns the empty string exactly when the input is all whitespace. |
| PyStr.StripPadded | machado/management/commands/load_feature_dbxrefs.py:101 | `strip` removes exactly the surrounding whitespace from a string whose ends are not whitespace. |
| PyStr.Split | machado/management/commands/load_feature_dbxrefs.py:101 | `split(sep)` gives one more field than there are separators, and no field contains the separator. |
| PyStr.JoinSplit | machado/management/commands/load_feature_dbxrefs.py:101 | Joining the fields of `split(sep)` with sep gives the string back. |
| PyStr.SplitJoin | machado/management/commands/load_feature_dbxrefs.py:101 | Splitting a join of separator-free fields gives the fields back. |
| PyStr.Basename | machado/management/commands/load_feature_dbxrefs.py:84 | `os.path.basename` gives a slash-free suffix of the path that follows its last slash, or the whole path when it has none. |
| PyStr.BasenameOfJoin | machado/management/commands/load_feature_dbxrefs.py:84 | The base name of `dir/name` is name. |
| TwoColumn.SplitLine | machado/management/commands/load_feature_dbxrefs.py:101 | A line unpacks into two names exactly when its stripped form holds one tab. Otherwise it raises the unpack ValueError; the model tags it with the field count. |
| TwoColumn.AcceptedFields | machado/management/commands/load_feature_dbxrefs.py:101 | The two names of an accepted line contain no tab. The stripped line is the feature, a tab, and the dbxref. |
| TwoColumn.SplitLineRoundTrip | machado/management/commands/load_feature_dbxrefs.py:101 | `feature<TAB>dbxref` with any trailing whitespace reads back as that pair. |
| TwoColumn.BlankLineRejected | machado/management/commands/load_feature_dbxrefs.py:101 | A blank line yields one field and is rejected. |
| TwoColumn.EmptyFeatureRejected | machado/management/commands/load_feature_dbxrefs.py:101 | A line with an empty feature name loses its leading tab to `strip` and is rejected. |
| TwoColumn.EmptyDbxrefRejected | machado/management/commands/load_feature_dbxrefs.py:101 | A line with an empty dbxref loses its trailing tab to `strip` and is rejected. |
| FeatureDbxrefs.Handle | machado/management/commands/load_feature_dbxrefs.py:57-131 | `Command.handle`: preflight, loader, pool, submission loop, result loop and success, each with its `except` clauses. Its behaviour is stated by the lemmas below. |
| FeatureDbxrefs.Submit | machado/management/commands/load_feature_dbxrefs.py:99-106 | The submission loop makes at most one task per line; `SubmitsEveryLine` and `SubmitsUpTo` state exactly which. |
| FeatureDbxrefs.ParseAt | machado/management/commands/load_feature_dbxrefs.py:100-101 | The j-th split is the split of the j-th line, in file order. |
| FeatureDbxrefs.NotFoundMembers | machado/management/commands/load_feature_dbxrefs.py:114-115 | The collected messages are exactly the messages of the not-found results. |
| FeatureDbxrefs.Drain | machado/management/commands/load_feature_dbxrefs.py:111-121 | The result loop stops only with a Failure that matches its CommandError, or with an unrecorded exception that is not an ImportingError. |
| FeatureDbxrefs.SubmitsEveryLine | machado/management/commands/load_feature_dbxrefs.py:99-106 | When every line splits, each line gives exactly one task, in file order. Only the file's own read error, if it has one, escapes. |
| FeatureDbxrefs.SubmitsUpTo | machado/management/commands/load_feature_dbxrefs.py:100-106 | The first malformed line stops submission after the tasks of the lines before it, and its ValueError escapes. |
| FeatureDbxrefs.DrainFinishes | machado/management/commands/load_feature_dbxrefs.py:111-118 | With no fatal result, the loop finishes and collects every not-found message in completion order. |
| FeatureDbxrefs.DrainStops | machado/management/commands/load_feature_dbxrefs.py:111-121 | The loop stops at the first fatal result. That result decides the Failure and the exit. |
| FeatureDbxrefs.StrictDrain | machado/management/commands/load_feature_dbxrefs.py:114-118 | Without ignore-not-found, a not-found result preceded only by successes stops the loop with Failure(m) and CommandError(m), and m is the only message collected. |
| FeatureDbxrefs.DrainIff | machado/management/commands/load_feature_dbxrefs.py:111-121 | Over any completion order, the loop finishes exactly when no task result is fatal. It then reports exactly the not-found messages. |
| FeatureDbxrefs.LoadSubmitsAll | machado/management/commands/load_feature_dbxrefs.py:86-106 | With the loader built and every line accepted, one task per line follows the preflight calls, in file order. |
| FeatureDbxrefs.LoadStopsAt | machado/management/commands/load_feature_dbxrefs.py:99-106 | A rejected line ends the run after the earlier lines' tasks. No entry is recorded and its ValueError escapes. |
| FeatureDbxrefs.PreflightDisciplined | machado/management/commands/load_feature_dbxrefs.py:73-81 | Every preflight `except` path keeps the ledger discipline. |
| FeatureDbxrefs.ConcludeDisciplined | machado/management/commands/load_feature_dbxrefs.py:111-129 | Ending after the result loop keeps the ledger discipline. |
| FeatureDbxrefs.LoadDisciplined | machado/management/commands/load_feature_dbxrefs.py:86-129 | Every path from loader construction on keeps the ledger discipline and the earlier calls. |
| FeatureDbxrefs.LedgerDiscipline | machado/management/commands/load_feature_dbxrefs.py:68-129 | Start is recorded before validation. Every path leaves Start and at most one terminal entry. Success("Done") is recorded exactly when the command returns. Every CommandError comes with a Failure of its message. |
| FeatureDbxrefs.PreflightImportingError | machado/management/commands/load_feature_dbxrefs.py:73-78 | A validation or lookup ImportingError gives Failure(m) and CommandError(m). No loader is built and no task is submitted. |
| FeatureDbxrefs.PreflightIntegrityError | machado/management/commands/load_feature_dbxrefs.py:79-81 | A preflight IntegrityError gives Failure(m) and is re-raised as ImportingError, not CommandError. |
| FeatureDbxrefs.PreflightOtherErrorLeaks | machado/management/commands/load_feature_dbxrefs.py:73-81 | Any other preflight exception escapes as it is, with only Start recorded. |
| FeatureDbxrefs.LoaderConstruction | machado/management/commands/load_feature_dbxrefs.py:84-92 | The loader gets the base name, "GFF_source" and the resolved organism. Its ImportingError gives Failure and CommandError; any other error escapes unrecorded; either way nothing is submitted. |
| FeatureDbxrefs.PoolSizeRejected | machado/management/commands/load_feature_dbxrefs.py:94 | A pool size below one makes `ThreadPoolExecutor` raise ValueError after the loader is built. Nothing is submitted and only Start is recorded. |
| FeatureDbxrefs.OneTaskPerLine | machado/management/commands/load_feature_dbxrefs.py:99-106 | With every line accepted, each line gives one task carrying its (feature, soterm, dbxref), in file order, with the same soterm for all. |
| FeatureDbxrefs.MalformedLineLeaks | machado/management/commands/load_feature_dbxrefs.py:99-106 | The first malformed line escapes as ValueError after the earlier lines' tasks, and the job keeps only its Start entry. |
| FeatureDbxrefs.ReadErrorLeaks | machado/management/commands/load_feature_dbxrefs.py:99-106 | A file that fails to open or decode after its well-formed lines escapes with that error once each line has its task. Only Start is recorded and no result is read. |
| FeatureDbxrefs.ImportingErrorResultFatal | machado/management/commands/load_feature_dbxrefs.py:119-121 | Under either policy, an ImportingError result that is first fatal in completion order gives Failure(m) and CommandError(m). |
| FeatureDbxrefs.OtherResultErrorLeaks | machado/management/commands/load_feature_dbxrefs.py:111-121 | Any other fatal result escapes as it is, with only Start recorded. |
| FeatureDbxrefs.StrictNotFound | machado/management/commands/load_feature_dbxrefs.py:114-118 | When not-found is not ignored, the first not-found result ends the job with Failure(m) and CommandError(m), and m is the only entry of the not-found list. |
| FeatureDbxrefs.SucceedsIff | machado/management/commands/load_feature_dbxrefs.py:111-129 | The job ends with Success("Done") exactly when preflight and loader succeed, the pool size is at least one, every line splits, the file reads to its end and no result is fatal under the policy. The not-found list then holds exactly the not-found results' messages, in completion order. |
| FeatureDbxrefs.TolerantRunSucceeds | machado/management/commands/load_feature_dbxrefs.py:111-129 | With not-found ignored and every result a success or a not-found error, a job whose preflight, loader, lines and file reading are fine leaves exactly [Start, Success("Done")]. It reports every not-found message, in completion order. |
| FeatureDbxrefs.NotFoundPermutes | machado/management/commands/load_feature_dbxrefs.py:111-115 | Two streams that hold the same results, each as often, report the same not-found messages, each as often. |
| FeatureDbxrefs.OutcomeIgnoresCompletionOrder | machado/management/commands/load_feature_dbxrefs.py:111-129 | Success does not depend on the completion order. On success, the reported messages are the same multiset under every order; only their list order changes. |
| Fasta.Handle | machado/management/commands/load_fasta.py:61-123 | `Command.handle`: preflight, loader, pool, submission loop, result loop and success. Its behaviour is stated by the lemmas below. |
| Fasta.Scan | machado/management/commands/load_fasta.py:116-118 | Whatever the result loop raises comes from some fatal result of the stream. |
| Fasta.ScanNone | machado/management/commands/load_fasta.py:116-121 | The result loop raises nothing exactly when every result is falsy. |
| Fasta.ScanStops | machado/management/commands/load_fasta.py:116-118 | The loop raises what the first truthy or raising result in the stream raises. |
| Fasta.LoadSubmits | machado/management/commands/load_fasta.py:101-113 | With the loader built, one task per parsed record follows the preflight calls, in input order. |
| Fasta.PreflightShaped | machado/management/commands/load_fasta.py:81-86 | The preflight paths keep the command's ledger shape. |
| Fasta.LoadShaped | machado/management/commands/load_fasta.py:90-121 | Every path from loader construction on keeps the ledger shape and the earlier calls. |
| Fasta.LedgerShape | machado/management/commands/load_fasta.py:75-121 | Start is recorded before validation. There is at most one terminal entry, and Success("Done") exactly when the command returns. A Failure is recorded only with CommandError of its message. |
| Fasta.PreflightImportingError | machado/management/commands/load_fasta.py:81-86 | A validation or lookup ImportingError gives Failure(m) and CommandError(m), with no loader and no task. |
| Fasta.PreflightOtherErrorLeaks | machado/management/commands/load_fasta.py:81-86 | Any other preflight exception, an IntegrityError included, escapes with only Start recorded. |
| Fasta.LoaderErrorUnrecorded | machado/management/commands/load_fasta.py:89-99 | The loader gets the base name, the organism and the optional metadata. Its ImportingError raises CommandError with only Start recorded; other errors escape; nothing is submitted. |
| Fasta.PoolSizeRejected | machado/management/commands/load_fasta.py:103 | A pool size below one makes `ThreadPoolExecutor` raise ValueError before the first record is read. Nothing is submitted and only Start is recorded. |
| Fasta.OneTaskPerRecord | machado/management/commands/load_fasta.py:101-113 | Each parsed record gives one task, in input order, with the same soterm and nosequence. |
| Fasta.ParseErrorLeaks | machado/management/commands/load_fasta.py:101-105 | A parser error escapes with only Start recorded. |
| Fasta.FirstTruthyRaised | machado/management/commands/load_fasta.py:116-118 | The first truthy or raising result in completion order is raised, or a TypeError for a truthy non-exception. No Failure or Success is recorded. |
| Fasta.SucceedsIff | machado/management/commands/load_fasta.py:116-121 | Success("Done") is recorded exactly when preflight and loader succeed, the pool size is at least one, the file parses and every task result is falsy. |
| Fasta.RaisedComesFromATask | machado/management/commands/load_fasta.py:116-118 | An exception escaping the result loop is what some task raised or returned. |
| Fasta.OutcomeIgnoresCompletionOrder | machado/management/commands/load_fasta.py:116-121 | Whether the job succeeds does not depend on the completion order. |
| RelationsOntology.Handle | machado/management/commands/load_relations_ontology.py:36-67 | `Command.handle`: validation, reading the OBO file, the loader and the typedef loop. Its behaviour is stated by the lemmas below. |
| RelationsOntology.StoreAll | machado/management/commands/load_relations_ontology.py:62-63 | The typedef loop stores at most one typedef per entry; `StoresEvery`, `StoresUpTo` and `StoreAllFails` state exactly which. |
| RelationsOntology.StoresEvery | machado/management/commands/load_relations_ontology.py:62-63 | With every store succeeding, each typedef is stored once, in sequence order. |
| RelationsOntology.StoresUpTo | machado/management/commands/load_relations_ontology.py:62-63 | The first failing store ends the loop after storing the typedefs up to and including it, and its exception escapes. |
| RelationsOntology.StoreAllFails | machado/management/commands/load_relations_ontology.py:62-63 | The loop fails exactly when some store fails. |
| RelationsOntology.FinishDisciplined | machado/management/commands/load_relations_ontology.py:62-65 | Ending after the typedef loop keeps the ledger discipline and the earlier calls. |
| RelationsOntology.LedgerDiscipline | machado/management/commands/load_relations_ontology.py:38-65 | Start is recorded before validation. At most one terminal entry follows. Success("Done") is recorded exactly when the command returns, and every CommandError comes with its Failure. |
| RelationsOntology.ValidationError | machado/management/commands/load_relations_ontology.py:40-44 | A validation ImportingError gives Failure(m) and CommandError(m), and the file is never read. Other validation errors escape unrecorded. |
| RelationsOntology.FixedVocabulary | machado/management/commands/load_relations_ontology.py:53-56 | The loader is always built for the vocabulary "relationship". |
| RelationsOntology.ReadOrLoaderErrorLeaks | machado/management/commands/load_relations_ontology.py:47-56 | A read or loader error escapes with only Start recorded, and no typedef is stored. |
| RelationsOntology.EveryTypeDefOnce | machado/management/commands/load_relations_ontology.py:62-65 | With every store succeeding, the calls are the preflight calls, then one store per typedef, in order. No term or edge is stored, and Success("Done") is recorded. |
| RelationsOntology.StoreErrorLeaks | machado/management/commands/load_relations_ontology.py:62-63 | A failing store escapes after the typedefs up to it are stored, with only Start recorded. |
| RelationsOntology.SucceedsIff | machado/management/commands/load_relations_ontology.py:40-65 | The job succeeds exactly when validation, reading, loader construction and every store succeed. |

## Left out

- The thread pool's concurrency is not modelled. Tasks still running after the command stops reading results, and `pool.shutdown()`, are left out; only the completion order of results is modelled.
- The `verbosity` argument, `tqdm` progress and all stdout output are left out, because they do not change the ledger, the calls or the exit. Of `cpu`, only the pool constructor's ValueError for a size below one is modelled; the degree of parallelism is not.
- The `params=locals()` snapshot passed to `History.start` is left out; the model records only the command name.
- Failures of the ledger writes themselves are left out, because the ledger is an abstract event log here.
- The History model and the loader classes are not part of this model. Their effects are oracle answers.
- In `load_feature_dbxrefs`, an `open()` failure and a read or decoding error are the same thing: a read error after the lines read so far, zero for `open()`. Python reads in blocks, so a decoding error may surface a few lines before the bad byte; the model places it after a given prefix of lines, whatever its length.
- In `load_fasta`, an `open()` failure and a parse error are the same thing: a parser error after zero records. When the pool size is also below one, the source raises the `open()` error first, while the model raises the pool's ValueError.
- In `load_relations_ontology`, an `open()` failure and an OBO read error are both a failing read.
- A missing "typedefs" key in the OBO graph is left out, because the OBO reader always sets it.
- The not-found list holds exception objects in the source; the model keeps their messages, which is what gets reported.
- Fasta.OutcomeIgnoresCompletionOrder: states only that success does not depend on the completion order. Which exception escapes does depend on it; `Fasta.RaisedComesFromATask` bounds it instead.
