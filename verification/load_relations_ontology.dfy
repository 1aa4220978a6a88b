/**
 The `load_relations_ontology` command: store the relationship typedefs of
 an OBO file under the fixed vocabulary "relationship".

 The command records Start, validates the file, reads the OBO graph, builds
 an OntologyLoader and stores the graph's typedefs one after the other, on
 the calling thread. Only a validation ImportingError is recorded as a
 failure; every later error escapes unrecorded.
 */
module RelationsOntology {
  import opened Job

  const Command := "load_relations_ontology"

  /** The vocabulary every typedef is stored under. */
  const CvName := "relationship"

  datatype Request = Request(file: string)

  /** The parts of an OBO graph the command can reach. The command reads
      only the typedefs; terms and edges are here to show what it leaves
      alone. */
  datatype Graph = Graph(typedefs: seq<TypeDef>, terms: seq<Term>, edges: seq<Edge>)

  /** What the collaborators answer. `graph` is what opening and reading
      the OBO file gives; `stores[i]` is how storing the i-th typedef
      ended. */
  datatype World = World(
    validate: Outcome<()>,
    graph: Outcome<Graph>,
    loader: Outcome<()>,
    stores: seq<Outcome<()>>)

  predicate WellFormed(w: World)
  {
    w.graph.Returns? ==> |w.stores| == |w.graph.value.typedefs|
  }

  datatype Stored = Stored(calls: seq<Call>, error: Option<Exc>)

  /** The typedef loop: each typedef is stored in turn, and the first
      store that raises ends the loop with its exception. */
  function StoreAll(typedefs: seq<TypeDef>, stores: seq<Outcome<()>>): (r: Stored)
    requires |stores| == |typedefs|
    ensures |r.calls| <= |typedefs|
  {
    if typedefs == [] then Stored([], None)
    else if stores[0].Raises? then Stored([StoreTypeDef(typedefs[0])], Some(stores[0].exc))
    else
      var rest := StoreAll(typedefs[1..], stores[1..]);
      Stored([StoreTypeDef(typedefs[0])] + rest.calls, rest.error)
  }

  /** The calls made before the first store. */
  function Prelude(req: Request): seq<Call>
  {
    [Validate(req.file), ReadObo(req.file), NewOntologyLoader(CvName)]
  }

  /** After the typedef loop: Success("Done"), or the store's error escapes. */
  function Finish(calls: seq<Call>, stored: Stored): Run
  {
    if stored.error.Some? then Run(calls + stored.calls, None, Raised(stored.error.value))
    else Run(calls + stored.calls, Some(Success(DoneMessage)), Done)
  }

  /** `Command.handle`. */
  function Handle(req: Request, w: World): Run
    requires WellFormed(w)
  {
    if w.validate.Raises? then
      match w.validate.exc
      case ImportingError(m) => Run([Validate(req.file)], Some(Failure(m)), CommandError(m))
      case e => Run([Validate(req.file)], None, Raised(e))
    else if w.graph.Raises? then
      Run([Validate(req.file), ReadObo(req.file)], None, Raised(w.graph.exc))
    else if w.loader.Raises? then
      Run(Prelude(req), None, Raised(w.loader.exc))
    else
      Finish(Prelude(req), StoreAll(w.graph.value.typedefs, w.stores))
  }

  /** Validation, parsing and loader construction succeeded. */
  predicate Prepared(w: World)
  {
    w.validate.Returns? && w.graph.Returns? && w.loader.Returns?
  }

  /** The calls that store the given typedefs, in order. */
  function StoreCalls(typedefs: seq<TypeDef>): (calls: seq<Call>)
    ensures |calls| == |typedefs|
    ensures forall j | 0 <= j < |typedefs| :: calls[j] == StoreTypeDef(typedefs[j])
  {
    seq(|typedefs|, j requires 0 <= j < |typedefs| => StoreTypeDef(typedefs[j]))
  }

  /** k is the first typedef whose store raises. */
  predicate FirstStoreErrorAt(stores: seq<Outcome<()>>, k: nat)
  {
    k < |stores| && stores[k].Raises? && forall j | 0 <= j < k :: stores[j].Returns?
  }

  // ---- The typedef loop ---------------------------------------------------

  /** With every store succeeding, each typedef is stored exactly once, in
      sequence order, and nothing escapes. */
  lemma {:induction false} StoresEvery(typedefs: seq<TypeDef>, stores: seq<Outcome<()>>)
    requires |stores| == |typedefs|
    requires forall j | 0 <= j < |stores| :: stores[j].Returns?
    ensures StoreAll(typedefs, stores) == Stored(StoreCalls(typedefs), None)
    decreases |typedefs|
  {
    if typedefs != [] {
      assert forall j | 0 < j < |stores| :: stores[1..][j - 1] == stores[j];
      StoresEvery(typedefs[1..], stores[1..]);
      StoreCallsCons(typedefs);
    }
  }

  /** The first failing store ends the loop: the typedefs up to and
      including it were stored in order, and its exception escapes. */
  lemma {:induction false} StoresUpTo(typedefs: seq<TypeDef>, stores: seq<Outcome<()>>, k: nat)
    requires |stores| == |typedefs|
    requires FirstStoreErrorAt(stores, k)
    ensures StoreAll(typedefs, stores) == Stored(StoreCalls(typedefs[..k + 1]), Some(stores[k].exc))
    decreases k
  {
    if k == 0 {
      assert StoreCalls(typedefs[..1]) == [StoreTypeDef(typedefs[0])];
    } else {
      assert forall j | 0 < j < |stores| :: stores[1..][j - 1] == stores[j];
      StoresUpTo(typedefs[1..], stores[1..], k - 1);
      assert typedefs[1..][..k] == typedefs[..k + 1][1..];
      StoreCallsCons(typedefs[..k + 1]);
    }
  }

  lemma StoreCallsCons(typedefs: seq<TypeDef>)
    requires typedefs != []
    ensures StoreCalls(typedefs) == [StoreTypeDef(typedefs[0])] + StoreCalls(typedefs[1..])
  {
    var rest := StoreCalls(typedefs[1..]);
    assert forall j | 0 < j < |typedefs| :: StoreCalls(typedefs)[j] == rest[j - 1];
  }

  /** The loop fails exactly when some store fails. */
  lemma {:induction false} StoreAllFails(typedefs: seq<TypeDef>, stores: seq<Outcome<()>>)
    requires |stores| == |typedefs|
    ensures StoreAll(typedefs, stores).error.Some? <==> exists j | 0 <= j < |stores| :: stores[j].Raises?
    decreases |typedefs|
  {
    if typedefs != [] {
      assert forall j | 0 < j < |stores| :: stores[1..][j - 1] == stores[j];
      StoreAllFails(typedefs[1..], stores[1..]);
    }
  }

  // ---- Properties of the command ------------------------------------------

  lemma FinishDisciplined(calls: seq<Call>, stored: Stored)
    ensures Disciplined(Finish(calls, stored))
    ensures |Finish(calls, stored).calls| >= |calls|
    ensures Finish(calls, stored).calls[..|calls|] == calls
  {
    assert (calls + stored.calls)[..|calls|] == calls;
  }

  /** Every path keeps the ledger discipline: Start, then at most one
      terminal entry; Success("Done") exactly when the command returns; a
      CommandError always with the Failure of its message. The first call
      after recording Start is the file validation. */
  lemma LedgerDiscipline(req: Request, w: World)
    requires WellFormed(w)
    ensures Disciplined(Handle(req, w))
    ensures |Handle(req, w).calls| >= 1 && Handle(req, w).calls[0] == Validate(req.file)
    ensures var t := Trace(Command, Handle(req, w));
            && WellFormedLedger(Ledger(t), Command)
            && |t| >= 2 && t[0] == Record(Start(Command)) && t[1] == Invoke(Validate(req.file))
  {
    HandleDisciplined(req, w);
    StartsBefore(Command, Handle(req, w), Validate(req.file));
  }

  lemma HandleDisciplined(req: Request, w: World)
    requires WellFormed(w)
    ensures Disciplined(Handle(req, w))
    ensures |Handle(req, w).calls| >= 1 && Handle(req, w).calls[0] == Validate(req.file)
  {
    if Prepared(w) {
      var stored := StoreAll(w.graph.value.typedefs, w.stores);
      FinishDisciplined(Prelude(req), stored);
      var made := Finish(Prelude(req), stored).calls;
      assert made[0] == made[..3][0];
    }
  }

  /** A validation ImportingError is recorded once and becomes
      CommandError; the file is never read. Any other validation error
      escapes unrecorded. */
  lemma ValidationError(req: Request, w: World)
    requires WellFormed(w) && w.validate.Raises?
    ensures Handle(req, w).calls == [Validate(req.file)]
    ensures w.validate.exc.ImportingError? ==>
              && Handle(req, w).last == Some(Failure(w.validate.exc.msg))
              && Handle(req, w).exit == CommandError(w.validate.exc.msg)
    ensures !w.validate.exc.ImportingError? ==>
              && Handle(req, w).last == None
              && Handle(req, w).exit == Raised(w.validate.exc)
  {
  }

  /** Once the file is read, the loader is built for the vocabulary
      "relationship", whatever the file holds. */
  lemma FixedVocabulary(req: Request, w: World)
    requires WellFormed(w) && w.validate.Returns? && w.graph.Returns?
    ensures |Handle(req, w).calls| >= 3
    ensures Handle(req, w).calls[..3] == [Validate(req.file), ReadObo(req.file), NewOntologyLoader("relationship")]
  {
    if w.loader.Returns? {
      FinishDisciplined(Prelude(req), StoreAll(w.graph.value.typedefs, w.stores));
    }
  }

  /** A read or loader error escapes with nothing recorded after Start,
      and no typedef is stored. */
  lemma ReadOrLoaderErrorLeaks(req: Request, w: World)
    requires WellFormed(w) && w.validate.Returns? && (w.graph.Raises? || w.loader.Raises?)
    ensures Handle(req, w).last == None
    ensures Handle(req, w).exit == Raised(if w.graph.Raises? then w.graph.exc else w.loader.exc)
    ensures Handle(req, w).calls
            == if w.graph.Raises? then [Validate(req.file), ReadObo(req.file)] else Prelude(req)
  {
  }

  /** With every store succeeding, the calls after the loader's are exactly
      one store per typedef, in sequence order, and Success("Done") is
      recorded. That no term and no relationship is stored follows from the
      exact call list: the command never builds such a call, since it never
      reads the graph's terms or edges. */
  lemma EveryTypeDefOnce(req: Request, w: World)
    requires WellFormed(w) && Prepared(w)
    requires forall j | 0 <= j < |w.stores| :: w.stores[j].Returns?
    ensures Handle(req, w).calls == Prelude(req) + StoreCalls(w.graph.value.typedefs)
    ensures forall c | c in Handle(req, w).calls :: !c.StoreTerm? && !c.StoreRelationship?
    ensures Handle(req, w).last == Some(Success(DoneMessage))
  {
    StoresEvery(w.graph.value.typedefs, w.stores);
  }

  /** The first failing store escapes after the typedefs up to and
      including it were stored, with nothing recorded after Start. */
  lemma StoreErrorLeaks(req: Request, w: World, k: nat)
    requires WellFormed(w) && Prepared(w) && FirstStoreErrorAt(w.stores, k)
    ensures Handle(req, w).calls == Prelude(req) + StoreCalls(w.graph.value.typedefs[..k + 1])
    ensures Handle(req, w).last == None
    ensures Handle(req, w).exit == Raised(w.stores[k].exc)
  {
    StoresUpTo(w.graph.value.typedefs, w.stores, k);
  }

  /** The job succeeds exactly when validation, reading, loader construction
      and every typedef store succeed. */
  lemma SucceedsIff(req: Request, w: World)
    requires WellFormed(w)
    ensures Handle(req, w).exit.Done? <==>
              Prepared(w) && forall j | 0 <= j < |w.stores| :: w.stores[j].Returns?
  {
    if Prepared(w) {
      StoreAllFails(w.graph.value.typedefs, w.stores);
    }
  }
}
