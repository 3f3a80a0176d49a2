/** The graph loader, one model for the three copies of csv_loader.py
    (db/scripts/, db/container/ and the repository root): the startup rebuild
    of graph `fcsv`, label registration, the node and edge file loads, and
    the phase order of the main block. The copies differ only in the CSV
    directories and in the scripts copy's extra embedding phase. */
module Loader {
  import opened Wrappers
  import opened Text
  import opened Store
  import opened Indexer
  import opened Embedder
  import Sets

  const GraphName: string := "fcsv"

  /** `node_types`, in registration order. */
  const VertexLabels: seq<string> := [
    "Drug", "ActiveIngredient", "Excipient", "GenericGroup",
    "LegalSubstanceList", "Indication", "Contraindication", "ROA"]

  /** `edge_types`, in registration order. */
  const EdgeLabels: seq<string> := [
    "IsAdministeredVia", "ContainsActiveIngredient", "ContainsExcipient",
    "IsPartOfGenericGroup", "IsReferenceDrugInGroup", "IsGenericDrugInGroup",
    "BelongsToLegalSubstanceList", "HasIndication", "HasContraindication"]

  /** Every label `register_labels` creates: vertex labels first. */
  const LabelOrder: seq<string> := VertexLabels + EdgeLabels

  datatype Copy = ScriptsCopy | ContainerCopy | RootCopy

  function NodesDir(c: Copy): string
  {
    match c
    case ScriptsCopy => "/tmp/csv/nodes"
    case ContainerCopy => "./csv/nodes"
    case RootCopy => "/var/lib/postgresql/csv/nodes"
  }

  function EdgesDir(c: Copy): string
  {
    match c
    case ScriptsCopy => "/tmp/csv/edges"
    case ContainerCopy => "./csv/edges"
    case RootCopy => "/var/lib/postgresql/csv/edges"
  }

  datatype Kind = Vertices | Edges

  /** One committed `load_labels_from_file` / `load_edges_from_file` call. */
  datatype Load = Load(kind: Kind, labelName: string, path: string)

  /** What the model tracks of graph `fcsv`: its registered labels and the
      file loads committed into it, in order. */
  datatype Graph = Graph(labels: set<string>, loads: seq<Load>)

  const EmptyGraph: Graph := Graph({}, [])

  // ---------------------------------------------------------------------
  // Startup
  // ---------------------------------------------------------------------

  datatype Startup = Created | Recreated

  datatype Rebuilt = Rebuilt(action: Startup, graph: Graph)

  /** The module-level block: create `fcsv` if absent, otherwise drop it
      (with its contents) and create it again. */
  function Rebuild(existing: Option<Graph>): (r: Rebuilt)
    ensures r.graph == EmptyGraph
    ensures r.action == Created <==> existing.None?
  {
    match existing
    case None => Rebuilt(Created, EmptyGraph)
    case Some(_) => Rebuilt(Recreated, EmptyGraph)
  }

  // ---------------------------------------------------------------------
  // register_labels
  // ---------------------------------------------------------------------

  /** How one `create_vlabel` / `create_elabel` call is reported. */
  datatype Reply = Registered | AlreadyExists | Error(message: string)

  /** The error Apache AGE raises for a label the graph already has. */
  function AlreadyExistsMessage(l: string): string
  {
    "label \"" + l + "\" already exists"
  }

  /** The error PostgreSQL raises for any statement of an aborted transaction. */
  const AbortedMessage: string := "current transaction is aborted, commands ignored until end of transaction block"

  /** The `except` clause: `"already exists" in str(e)` decides the report. */
  function Classify(message: string): (r: Reply)
    ensures r.AlreadyExists? <==> Contains(message, "already exists")
    ensures r.Error? ==> r.message == message
  {
    if Contains(message, "already exists") then AlreadyExists else Error(message)
  }

  /** The server's answer to creating label `l` on a healthy transaction, given
      the labels that exist: the already-exists error, an unrelated failure
      `fault(l)`, or success (None). */
  function CreateLabel(existing: set<string>, l: string, fault: string -> Option<string>): (m: Option<string>)
    ensures l in existing ==> m == Some(AlreadyExistsMessage(l))
    ensures l !in existing ==> m == fault(l)
  {
    if l in existing then Some(AlreadyExistsMessage(l)) else fault(l)
  }

  lemma AlreadyExistsRecognised(l: string)
    ensures Classify(AlreadyExistsMessage(l)) == AlreadyExists
  {
    var m := AlreadyExistsMessage(l);
    assert m == ("label \"" + l + "\" ") + "already exists";
    assert m[|l| + 9..|l| + 9 + 14] == "already exists";
    assert OccursAt(m, "already exists", |l| + 9);
  }

  /** The report a label gets when its call runs on a healthy transaction. */
  function ExpectedReply(existing: set<string>, l: string, fault: string -> Option<string>): (r: Reply)
    ensures l in existing ==> r == AlreadyExists
    ensures r == Registered <==> l !in existing && fault(l).None?
  {
    if l in existing then AlreadyExistsRecognised(l); AlreadyExists
    else match fault(l)
      case None => Registered
      case Some(m) => Classify(m)
  }

  /** Registration state inside the transaction: the committed labels, the
      labels created so far, and whether the transaction is aborted. */
  datatype Registration = Registration(labels: set<string>, pending: set<string>, aborted: bool)

  /** One loop iteration: the new state and the report printed for the label. */
  datatype Attempted = Attempted(state: Registration, reply: Reply)

  /** One iteration of a registration loop. On an aborted transaction every
      statement fails with the aborted-transaction error; otherwise a failure
      aborts the transaction as written and is undone on its own in the
      corrected reading. */
  function RegisterOne(s: Registration, l: string, fault: string -> Option<string>, rec: Recovery): (a: Attempted)
    ensures a.state.labels == s.labels
    ensures s.aborted ==> a == Attempted(s, Classify(AbortedMessage))
    ensures a.reply == Registered ==> a.state.pending == s.pending + {l}
  {
    if s.aborted then Attempted(s, Classify(AbortedMessage))
    else
      match CreateLabel(s.labels + s.pending, l, fault)
      case None => Attempted(s.(pending := s.pending + {l}), Registered)
      case Some(m) =>
        assert Classify(m) != Registered;
        Attempted(s.(aborted := rec == AsWritten), Classify(m))
  }

  /** On a healthy transaction, a label not yet created this time gets the
      report it would get alone, and only a failure under the code as
      written aborts the transaction. */
  lemma RegisterOneHealthy(s: Registration, l: string, fault: string -> Option<string>, rec: Recovery)
    requires !s.aborted && l !in s.pending
    ensures RegisterOne(s, l, fault, rec).reply == ExpectedReply(s.labels, l, fault)
    ensures RegisterOne(s, l, fault, rec).state.aborted <==> rec == AsWritten && ExpectedReply(s.labels, l, fault) != Registered
    ensures RegisterOne(s, l, fault, rec).state.pending
         == if ExpectedReply(s.labels, l, fault) == Registered then s.pending + {l} else s.pending
  {
    if l in s.labels {
      AlreadyExistsRecognised(l);
    }
  }

  /** A whole registration loop: the final state and one report per label. */
  datatype RegisterRun = RegisterRun(state: Registration, replies: seq<Reply>)

  function RegisterEach(s: Registration, ls: seq<string>, fault: string -> Option<string>, rec: Recovery): (r: RegisterRun)
    ensures r.state.labels == s.labels
    ensures |r.replies| == |ls|
    decreases |ls|
  {
    if |ls| == 0 then RegisterRun(s, [])
    else
      var a := RegisterOne(s, ls[0], fault, rec);
      var rest := RegisterEach(a.state, ls[1..], fault, rec);
      RegisterRun(rest.state, [a.reply] + rest.replies)
  }

  datatype RegisterResult = RegisterResult(graph: Graph, replies: seq<Reply>)

  /** `register_labels`: both loops, then `conn.commit()`, which on an aborted
      transaction ends it as a rollback. */
  function RegisterLabels(g: Graph, ls: seq<string>, fault: string -> Option<string>, rec: Recovery): (r: RegisterResult)
    ensures r.graph.loads == g.loads
    ensures g.labels <= r.graph.labels
    ensures |r.replies| == |ls|
  {
    var run := RegisterEach(Registration(g.labels, {}, false), ls, fault, rec);
    var s := run.state;
    RegisterResult(g.(labels := if s.aborted then g.labels else g.labels + s.pending), run.replies)
  }

  predicate Distinct(ls: seq<string>)
  {
    forall i, j :: 0 <= i < j < |ls| ==> ls[i] != ls[j]
  }

  lemma {:induction false} RegisterEachAborted(s: Registration, ls: seq<string>, fault: string -> Option<string>, rec: Recovery)
    requires s.aborted
    ensures RegisterEach(s, ls, fault, rec).state == s
    ensures forall i :: 0 <= i < |ls| ==> RegisterEach(s, ls, fault, rec).replies[i] == Classify(AbortedMessage)
    decreases |ls|
  {
    if 0 < |ls| {
      RegisterEachAborted(s, ls[1..], fault, rec);
    }
  }

  /** The tail of a list of distinct labels is distinct and avoids its head. */
  lemma DistinctTail(ls: seq<string>)
    requires Distinct(ls) && 0 < |ls|
    ensures Distinct(ls[1..])
    ensures forall i :: 0 <= i < |ls[1..]| ==> ls[1..][i] == ls[i + 1] && ls[1..][i] != ls[0]
  {
  }

  /** A registration loop's reports are the first call's report followed by
      the rest of the loop's. */
  lemma RegisterEachUnfold(s: Registration, ls: seq<string>, fault: string -> Option<string>, rec: Recovery)
    requires 0 < |ls|
    ensures var a := RegisterOne(s, ls[0], fault, rec);
      && RegisterEach(s, ls, fault, rec).state == RegisterEach(a.state, ls[1..], fault, rec).state
      && RegisterEach(s, ls, fault, rec).replies[0] == a.reply
      && forall i :: 0 < i < |ls| ==>
           RegisterEach(s, ls, fault, rec).replies[i] == RegisterEach(a.state, ls[1..], fault, rec).replies[i - 1]
  {
  }

  /** With each failure undone on its own the transaction never aborts, and
      the labels created are exactly those that neither exist nor fault. */
  lemma {:induction false} SavepointPending(s: Registration, ls: seq<string>, fault: string -> Option<string>)
    requires !s.aborted
    ensures !RegisterEach(s, ls, fault, Savepoint).state.aborted
    ensures var pending := RegisterEach(s, ls, fault, Savepoint).state.pending;
      forall l :: l in pending <==> l in s.pending || (l in ls && l !in s.labels && fault(l).None?)
    decreases |ls|
  {
    if 0 < |ls| {
      var a := RegisterOne(s, ls[0], fault, Savepoint);
      RegisterEachUnfold(s, ls, fault, Savepoint);
      SavepointPending(a.state, ls[1..], fault);
      assert forall l :: l in ls <==> l == ls[0] || l in ls[1..];
    }
  }

  /** With each failure undone on its own every label gets the report it
      would get alone. */
  lemma {:induction false} SavepointReplies(s: Registration, ls: seq<string>, fault: string -> Option<string>)
    requires !s.aborted && Distinct(ls)
    requires forall i :: 0 <= i < |ls| ==> ls[i] !in s.pending
    ensures forall i :: 0 <= i < |ls| ==>
      RegisterEach(s, ls, fault, Savepoint).replies[i] == ExpectedReply(s.labels, ls[i], fault)
    decreases |ls|
  {
    if 0 < |ls| {
      var a := RegisterOne(s, ls[0], fault, Savepoint);
      RegisterOneHealthy(s, ls[0], fault, Savepoint);
      RegisterEachUnfold(s, ls, fault, Savepoint);
      DistinctTail(ls);
      SavepointReplies(a.state, ls[1..], fault);
    }
  }

  /** Position of the first label whose call would fail, or `|ls|`. */
  function FirstRefused(existing: set<string>, ls: seq<string>, fault: string -> Option<string>): (f: nat)
    ensures f <= |ls|
    ensures forall i :: 0 <= i < f ==> ExpectedReply(existing, ls[i], fault) == Registered
    ensures f < |ls| ==> ExpectedReply(existing, ls[f], fault) != Registered
    decreases |ls|
  {
    if |ls| == 0 || ExpectedReply(existing, ls[0], fault) != Registered then 0
    else 1 + FirstRefused(existing, ls[1..], fault)
  }

  /** As written, the loop ends with an aborted transaction exactly when some
      call fails, and otherwise it has created every label. */
  lemma {:induction false} AsWrittenPending(s: Registration, ls: seq<string>, fault: string -> Option<string>)
    requires !s.aborted && Distinct(ls)
    requires forall i :: 0 <= i < |ls| ==> ls[i] !in s.pending
    ensures RegisterEach(s, ls, fault, AsWritten).state.aborted <==> FirstRefused(s.labels, ls, fault) < |ls|
    ensures !RegisterEach(s, ls, fault, AsWritten).state.aborted ==>
      forall l :: l in RegisterEach(s, ls, fault, AsWritten).state.pending <==> l in s.pending || l in ls
    decreases |ls|
  {
    if 0 < |ls| {
      var a := RegisterOne(s, ls[0], fault, AsWritten);
      RegisterOneHealthy(s, ls[0], fault, AsWritten);
      RegisterEachUnfold(s, ls, fault, AsWritten);
      if a.reply != Registered {
        RegisterEachAborted(a.state, ls[1..], fault, AsWritten);
      } else {
        DistinctTail(ls);
        AsWrittenPending(a.state, ls[1..], fault);
        assert forall l :: l in ls <==> l == ls[0] || l in ls[1..];
      }
    }
  }

  /** As written, the first failing call aborts the transaction: it gets its
      own report, and every later call fails with PostgreSQL's
      aborted-transaction error. */
  lemma {:induction false} AsWrittenReplies(s: Registration, ls: seq<string>, fault: string -> Option<string>)
    requires !s.aborted && Distinct(ls)
    requires forall i :: 0 <= i < |ls| ==> ls[i] !in s.pending
    ensures forall i :: 0 <= i < |ls| ==>
      RegisterEach(s, ls, fault, AsWritten).replies[i]
        == if i <= FirstRefused(s.labels, ls, fault) then ExpectedReply(s.labels, ls[i], fault)
           else Classify(AbortedMessage)
    decreases |ls|
  {
    if 0 < |ls| {
      var a := RegisterOne(s, ls[0], fault, AsWritten);
      RegisterOneHealthy(s, ls[0], fault, AsWritten);
      RegisterEachUnfold(s, ls, fault, AsWritten);
      if a.reply != Registered {
        RegisterEachAborted(a.state, ls[1..], fault, AsWritten);
      } else {
        DistinctTail(ls);
        AsWrittenReplies(a.state, ls[1..], fault);
      }
    }
  }

  /** The corrected registration: "already exists" is tolerated and other
      failures stop nothing. Every label gets the report it would get alone,
      and afterwards the graph has its old labels plus every label whose
      call did not fault. */
  lemma RegisterLabelsTolerant(g: Graph, ls: seq<string>, fault: string -> Option<string>)
    requires Distinct(ls)
    ensures RegisterLabels(g, ls, fault, Savepoint).graph.labels == g.labels + (set l | l in ls && fault(l).None?)
    ensures forall i :: 0 <= i < |ls| ==>
      RegisterLabels(g, ls, fault, Savepoint).replies[i] == ExpectedReply(g.labels, ls[i], fault)
  {
    var s := Registration(g.labels, {}, false);
    SavepointPending(s, ls, fault);
    SavepointReplies(s, ls, fault);
    var labels := RegisterLabels(g, ls, fault, Savepoint).graph.labels;
    assert forall l :: l in labels <==> l in g.labels || (l in ls && fault(l).None?);
  }

  /** As written, registration is all or nothing: the labels are added only
      if no call fails, and after the first failure every report is the
      aborted-transaction error. */
  lemma RegisterLabelsAllOrNothing(g: Graph, ls: seq<string>, fault: string -> Option<string>)
    requires Distinct(ls)
    ensures var f := FirstRefused(g.labels, ls, fault);
      && RegisterLabels(g, ls, fault, AsWritten).graph.labels
         == (if f == |ls| then g.labels + (set l | l in ls) else g.labels)
      && forall i :: 0 <= i < |ls| ==>
           RegisterLabels(g, ls, fault, AsWritten).replies[i]
             == if i <= f then ExpectedReply(g.labels, ls[i], fault) else Classify(AbortedMessage)
  {
    var s := Registration(g.labels, {}, false);
    var run := RegisterEach(s, ls, fault, AsWritten);
    assert RegisterLabels(g, ls, fault, AsWritten).replies == run.replies;
    AsWrittenReplies(s, ls, fault);
    AllOrNothingLabels(g, ls, fault);
  }

  lemma RegisterLabelsUnfold(g: Graph, ls: seq<string>, fault: string -> Option<string>, rec: Recovery)
    ensures var st := RegisterEach(Registration(g.labels, {}, false), ls, fault, rec).state;
      RegisterLabels(g, ls, fault, rec).graph.labels == if st.aborted then g.labels else g.labels + st.pending
  {
  }

  lemma AllOrNothingLabels(g: Graph, ls: seq<string>, fault: string -> Option<string>)
    requires Distinct(ls)
    ensures RegisterLabels(g, ls, fault, AsWritten).graph.labels
         == if FirstRefused(g.labels, ls, fault) == |ls| then g.labels + (set l | l in ls) else g.labels
  {
    var s := Registration(g.labels, {}, false);
    var st := RegisterEach(s, ls, fault, AsWritten).state;
    RegisterLabelsUnfold(g, ls, fault, AsWritten);
    AsWrittenPending(s, ls, fault);
    if !st.aborted {
      Sets.OfSeq(st.pending, ls);
    }
  }

  /** As written, one label that already exists blocks all the others: the
      "already exists" branch reports it, but the transaction is aborted, so
      no later label is created and nothing is committed. */
  lemma ExistingLabelBlocksRest(g: Graph, ls: seq<string>, fault: string -> Option<string>)
    requires Distinct(ls) && 0 < |ls| && ls[0] in g.labels
    ensures RegisterLabels(g, ls, fault, AsWritten).graph.labels == g.labels
    ensures RegisterLabels(g, ls, fault, AsWritten).replies[0] == AlreadyExists
    ensures forall i :: 0 < i < |ls| ==> RegisterLabels(g, ls, fault, AsWritten).replies[i] == Classify(AbortedMessage)
  {
    RegisterLabelsAllOrNothing(g, ls, fault);
  }

  lemma LabelOrderDistinct()
    ensures Distinct(LabelOrder) && |LabelOrder| == 17
  {
  }

  /** On the freshly rebuilt graph, with no call faulting, both readings
      register all 17 labels, each reported as registered. */
  lemma FreshGraphRegistersAll(fault: string -> Option<string>, rec: Recovery)
    requires forall l :: l in LabelOrder ==> fault(l).None?
    ensures RegisterLabels(EmptyGraph, LabelOrder, fault, rec).graph.labels == set l | l in LabelOrder
    ensures forall i :: 0 <= i < 17 ==> RegisterLabels(EmptyGraph, LabelOrder, fault, rec).replies[i] == Registered
  {
    LabelOrderDistinct();
    if rec == Savepoint {
      RegisterLabelsTolerant(EmptyGraph, LabelOrder, fault);
    } else {
      RegisterLabelsAllOrNothing(EmptyGraph, LabelOrder, fault);
    }
  }

  /** Registering again changes nothing, under either reading. */
  lemma RegisterTwice(g: Graph, ls: seq<string>, fault: string -> Option<string>, rec: Recovery)
    requires Distinct(ls)
    ensures var once := RegisterLabels(g, ls, fault, rec).graph;
      RegisterLabels(once, ls, fault, rec).graph == once
  {
    var once := RegisterLabels(g, ls, fault, rec).graph;
    if rec == Savepoint {
      RegisterLabelsTolerant(g, ls, fault);
      RegisterLabelsTolerant(once, ls, fault);
    } else {
      RegisterLabelsAllOrNothing(g, ls, fault);
      RegisterLabelsAllOrNothing(once, ls, fault);
      var f := FirstRefused(g.labels, ls, fault);
      if f == |ls| && 0 < |ls| {
        assert ls[0] in once.labels;
        assert FirstRefused(once.labels, ls, fault) == 0;
      }
    }
  }

  // ---------------------------------------------------------------------
  // load_nodes_from_csv / load_edges_from_csv
  // ---------------------------------------------------------------------

  /** One name `os.listdir` returns, and whether loading that file succeeds. */
  datatype DirEntry = DirEntry(name: string, loadOk: bool)

  /** A CSV directory: absent, or its entries in listing order. */
  datatype Listing = Missing | Entries(entries: seq<DirEntry>)

  predicate IsCsv(name: string)
  {
    EndsWith(name, ".csv")
  }

  /** `os.path.splitext(name)[0]` for a name ending in `.csv`: the name
      without the extension, except that a name whose part before `.csv` is
      only dots (such as `.csv` itself) has no extension in Python's sense
      and is kept whole. */
  function LabelOfFile(name: string): (l: string)
    requires IsCsv(name)
    ensures l == name || l + ".csv" == name
  {
    var stem := name[..|name| - 4];
    assert stem + ".csv" == name;
    if forall k :: 0 <= k < |stem| ==> stem[k] == '.' then name else stem
  }

  /** A stem with any character other than a dot comes back as the label. */
  lemma LabelOfFileStem(stem: string)
    requires exists k :: 0 <= k < |stem| && stem[k] != '.'
    ensures IsCsv(stem + ".csv") && LabelOfFile(stem + ".csv") == stem
  {
    var name := stem + ".csv";
    assert name[|name| - 4..] == ".csv";
    assert name[..|name| - 4] == stem;
    var k :| 0 <= k < |stem| && stem[k] != '.';
    assert name[..|name| - 4][k] != '.';
  }

  /** `Drug.csv` loads under label `Drug`. */
  lemma DrugCsvLabel()
    ensures IsCsv("Drug.csv") && LabelOfFile("Drug.csv") == "Drug"
  {
    assert "Drug"[0] != '.';
    LabelOfFileStem("Drug");
    assert "Drug" + ".csv" == "Drug.csv";
  }

  function LoadOf(kind: Kind, dir: string, name: string): Load
    requires IsCsv(name)
  {
    Load(kind, LabelOfFile(name), dir + "/" + name)
  }

  /** The loop over a listing: each `.csv` file is loaded and committed, or
      rolled back on failure; other names are ignored. */
  function Loaded(es: seq<DirEntry>, kind: Kind, dir: string): (r: seq<Load>)
    decreases |es|
  {
    if |es| == 0 then []
    else
      var rest := Loaded(es[1..], kind, dir);
      if IsCsv(es[0].name) && es[0].loadOk then [LoadOf(kind, dir, es[0].name)] + rest else rest
  }

  /** The loads recorded are exactly those of the `.csv` entries that load. */
  lemma {:induction false} LoadedMembers(es: seq<DirEntry>, kind: Kind, dir: string)
    ensures forall x :: x in Loaded(es, kind, dir) <==>
      exists i :: 0 <= i < |es| && IsCsv(es[i].name) && es[i].loadOk && x == LoadOf(kind, dir, es[i].name)
    decreases |es|
  {
    if 0 < |es| {
      LoadedMembers(es[1..], kind, dir);
      assert forall i :: 0 < i < |es| ==> es[i] == es[1..][i - 1];
    }
  }

  lemma {:induction false} LoadedAppend(a: seq<DirEntry>, b: seq<DirEntry>, kind: Kind, dir: string)
    ensures Loaded(a + b, kind, dir) == Loaded(a, kind, dir) + Loaded(b, kind, dir)
    decreases |a|
  {
    if |a| == 0 {
      assert a + b == b;
    } else {
      var e := a[0];
      assert (a + b)[0] == e;
      assert (a + b)[1..] == a[1..] + b;
      LoadedAppend(a[1..], b, kind, dir);
      var tail := Loaded(a[1..], kind, dir);
      if IsCsv(e.name) && e.loadOk {
        var x := LoadOf(kind, dir, e.name);
        assert Loaded(a, kind, dir) == [x] + tail;
        assert Loaded(a + b, kind, dir) == [x] + (tail + Loaded(b, kind, dir));
        Seqs.ConcatAssoc([x], tail, Loaded(b, kind, dir));
      } else {
        assert Loaded(a, kind, dir) == tail;
      }
    }
  }

  /** A file that fails to load (or is not a `.csv`) contributes nothing and
      does not stop the files after it. */
  lemma FailedFileSkipped(a: seq<DirEntry>, e: DirEntry, b: seq<DirEntry>, kind: Kind, dir: string)
    requires !IsCsv(e.name) || !e.loadOk
    ensures Loaded(a + [e] + b, kind, dir) == Loaded(a, kind, dir) + Loaded(b, kind, dir)
  {
    assert [e][1..] == [];
    assert Loaded([e], kind, dir) == [];
    LoadedAppend(a, [e], kind, dir);
    assert Loaded(a + [e], kind, dir) == Loaded(a, kind, dir) + [];
    LoadedAppend(a + [e], b, kind, dir);
  }

  /** The loads a listing yields: none for a missing directory. */
  function DirLoads(listing: Listing, kind: Kind, dir: string): seq<Load>
  {
    match listing
    case Missing => []
    case Entries(es) => Loaded(es, kind, dir)
  }

  /** One load phase: a missing directory changes nothing; otherwise the
      successful `.csv` files' loads are appended in listing order. */
  function LoadDir(g: Graph, kind: Kind, dir: string, listing: Listing): (r: Graph)
    ensures r.labels == g.labels
    ensures listing.Missing? ==> r == g
    ensures listing.Entries? ==> r.loads == g.loads + Loaded(listing.entries, kind, dir)
    ensures r.loads == g.loads + DirLoads(listing, kind, dir)
  {
    match listing
    case Missing => g
    case Entries(es) => g.(loads := g.loads + Loaded(es, kind, dir))
  }

  // ---------------------------------------------------------------------
  // The main block
  // ---------------------------------------------------------------------

  datatype Phase = RegisterPhase | NodesPhase | EdgesPhase | EmbeddingsPhase

  /** The calls in the `try` of the main block, in order. */
  function Phases(c: Copy): (ps: seq<Phase>)
    ensures |ps| == if c == ScriptsCopy then 4 else 3
    ensures ps[..3] == [RegisterPhase, NodesPhase, EdgesPhase]
    ensures c == ScriptsCopy ==> ps[3] == EmbeddingsPhase
  {
    if c == ScriptsCopy then [RegisterPhase, NodesPhase, EdgesPhase, EmbeddingsPhase]
    else [RegisterPhase, NodesPhase, EdgesPhase]
  }

  /** What the embedding phase of the scripts copy is given. */
  datatype EmbedInputs = EmbedInputs(tableOk: bool, labels: Fetch<seq<LabelScan>>, svc: Services,
                                     commits: nat -> bool, start: Index)

  /** Everything a run depends on besides the copy and the graph found at
      startup: per-label registration faults, the two directory listings, the
      embedding inputs, and the phase (if any) from which an exception escapes
      to the main block's `except`. Such an exception is raised before the
      phase commits anything (`os.listdir`, the closing `commit()`, the setup
      before the embedding table exists). */
  datatype Inputs = Inputs(fault: string -> Option<string>, nodes: Listing,
                           edges: Listing, embedding: EmbedInputs, crash: Option<Phase>)

  datatype RunState = RunState(graph: Graph, replies: seq<Reply>, index: Index, completed: seq<Phase>, stopped: bool)

  /** The vector table the scripts copy's embedding phase leaves. */
  function EmbedPhase(e: EmbedInputs, rec: Recovery): Index
  {
    if rec == Savepoint then ScriptsEmbedder(e.tableOk, e.labels, e.svc, e.commits, e.start).table
    else ScriptsEmbedderAsWritten(e.tableOk, e.labels, e.svc, e.commits, e.start).table
  }

  /** What a phase that runs to completion does to the graph, the reports
      and the vector table. */
  function Apply(s: RunState, p: Phase, c: Copy, inp: Inputs, rec: Recovery): RunState
  {
    match p
    case RegisterPhase =>
      var reg := RegisterLabels(s.graph, LabelOrder, inp.fault, rec);
      s.(graph := reg.graph, replies := reg.replies)
    case NodesPhase =>
      s.(graph := LoadDir(s.graph, Vertices, NodesDir(c), inp.nodes))
    case EdgesPhase =>
      s.(graph := LoadDir(s.graph, Edges, EdgesDir(c), inp.edges))
    case EmbeddingsPhase =>
      s.(index := EmbedPhase(inp.embedding, rec))
  }

  /** One call of the main block's `try`: skipped once an exception has
      escaped, raising before it commits anything, or run to completion. */
  function RunPhase(s: RunState, p: Phase, c: Copy, inp: Inputs, rec: Recovery): (r: RunState)
    ensures s.stopped ==> r == s
    ensures r.stopped <==> s.stopped || inp.crash == Some(p)
    ensures r.completed == if r.stopped then s.completed else s.completed + [p]
    ensures p != EmbeddingsPhase ==> r.index == s.index
  {
    if s.stopped then s
    else if inp.crash == Some(p) then s.(stopped := true)
    else
      var a := Apply(s, p, c, inp, rec);
      RunState(a.graph, a.replies, a.index, s.completed + [p], false)
  }

  function RunPhases(s: RunState, ps: seq<Phase>, c: Copy, inp: Inputs, rec: Recovery): (r: RunState)
    decreases |ps|
  {
    if |ps| == 0 then s else RunPhases(RunPhase(s, ps[0], c, inp, rec), ps[1..], c, inp, rec)
  }

  datatype RunResult = RunResult(startup: Startup, graph: Graph, replies: seq<Reply>, index: Index, completed: seq<Phase>)

  /** One execution of a loader copy: startup rebuild, then the phases of the
      main block until one raises. `rec` chooses between the code as written
      and each failed statement undone on its own. */
  function RunLoader(c: Copy, prior: Option<Graph>, inp: Inputs, rec: Recovery): (r: RunResult)
    ensures r.startup == Created <==> prior.None?
  {
    var start := Rebuild(prior);
    var s := RunPhases(RunState(start.graph, [], inp.embedding.start, [], false), Phases(c), c, inp, rec);
    RunResult(start.action, s.graph, s.replies, s.index, s.completed)
  }

  /** Index of the first phase of `ps` that raises, or `|ps|`. */
  function CrashIndex(ps: seq<Phase>, crash: Option<Phase>): (k: nat)
    ensures k <= |ps|
    ensures forall i :: 0 <= i < k ==> crash != Some(ps[i])
    ensures k < |ps| ==> crash == Some(ps[k])
    decreases |ps|
  {
    if |ps| == 0 || crash == Some(ps[0]) then 0 else 1 + CrashIndex(ps[1..], crash)
  }

  lemma {:induction false} StoppedStays(s: RunState, ps: seq<Phase>, c: Copy, inp: Inputs, rec: Recovery)
    requires s.stopped
    ensures RunPhases(s, ps, c, inp, rec) == s
    decreases |ps|
  {
    if 0 < |ps| {
      StoppedStays(s, ps[1..], c, inp, rec);
    }
  }

  /** The phases run in order and stop at the first one that raises. */
  lemma {:induction false} PhasesInOrder(s: RunState, ps: seq<Phase>, c: Copy, inp: Inputs, rec: Recovery)
    requires !s.stopped
    ensures RunPhases(s, ps, c, inp, rec).completed == s.completed + ps[..CrashIndex(ps, inp.crash)]
    ensures RunPhases(s, ps, c, inp, rec).stopped <==> CrashIndex(ps, inp.crash) < |ps|
    decreases |ps|
  {
    if |ps| == 0 {
      assert ps[..0] == [];
    } else {
      var t := RunPhase(s, ps[0], c, inp, rec);
      assert RunPhases(s, ps, c, inp, rec) == RunPhases(t, ps[1..], c, inp, rec);
      if inp.crash == Some(ps[0]) {
        StoppedStays(t, ps[1..], c, inp, rec);
        assert CrashIndex(ps, inp.crash) == 0;
        assert ps[..0] == [];
      } else {
        PhasesInOrder(t, ps[1..], c, inp, rec);
        var k := CrashIndex(ps[1..], inp.crash);
        assert CrashIndex(ps, inp.crash) == k + 1;
        Seqs.TakeCons(s.completed, ps, k);
      }
    }
  }


  /** Without an escaping exception every phase of the copy runs, in order;
      with one, exactly the phases before the first that raises run. */
  lemma PhaseOrder(c: Copy, prior: Option<Graph>, inp: Inputs, rec: Recovery)
    ensures RunLoader(c, prior, inp, rec).completed == Phases(c)[..CrashIndex(Phases(c), inp.crash)]
    ensures inp.crash.None? ==> RunLoader(c, prior, inp, rec).completed == Phases(c)
  {
    var s := RunState(EmptyGraph, [], inp.embedding.start, [], false);
    PhasesInOrder(s, Phases(c), c, inp, rec);
    assert s.completed + Phases(c)[..CrashIndex(Phases(c), inp.crash)] == Phases(c)[..CrashIndex(Phases(c), inp.crash)];
  }

  /** The graph found at startup makes no difference to a run: it is
      dropped and recreated empty. */
  lemma RunIgnoresPriorGraph(c: Copy, prior: Option<Graph>, other: Option<Graph>, inp: Inputs, rec: Recovery)
    ensures RunLoader(c, other, inp, rec).graph == RunLoader(c, prior, inp, rec).graph
    ensures RunLoader(c, other, inp, rec).replies == RunLoader(c, prior, inp, rec).replies
    ensures RunLoader(c, other, inp, rec).index == RunLoader(c, prior, inp, rec).index
    ensures RunLoader(c, other, inp, rec).completed == RunLoader(c, prior, inp, rec).completed
  {
  }

  /** The embedding phase leaves the graph and the registration reports alone. */
  lemma EmbeddingPhaseKeepsGraph(s: RunState, c: Copy, inp: Inputs, rec: Recovery)
    ensures RunPhase(s, EmbeddingsPhase, c, inp, rec).graph == s.graph
    ensures RunPhase(s, EmbeddingsPhase, c, inp, rec).replies == s.replies
  {
  }

  /** The state after registration, the node load and the edge load. */
  function ThreePhases(c: Copy, inp: Inputs, rec: Recovery): RunState
  {
    var s0 := RunState(EmptyGraph, [], inp.embedding.start, [], false);
    RunPhase(RunPhase(RunPhase(s0, RegisterPhase, c, inp, rec), NodesPhase, c, inp, rec), EdgesPhase, c, inp, rec)
  }

  /** Without an escaping exception the phase fold is the copy's phases
      applied one after another. */
  lemma RunUnroll(c: Copy, inp: Inputs, rec: Recovery)
    requires inp.crash.None?
    ensures var s3 := ThreePhases(c, inp, rec);
      RunPhases(RunState(EmptyGraph, [], inp.embedding.start, [], false), Phases(c), c, inp, rec)
        == if c == ScriptsCopy then RunPhase(s3, EmbeddingsPhase, c, inp, rec) else s3
  {
    var s0 := RunState(EmptyGraph, [], inp.embedding.start, [], false);
    var s1 := RunPhase(s0, RegisterPhase, c, inp, rec);
    var s2 := RunPhase(s1, NodesPhase, c, inp, rec);
    var s3 := RunPhase(s2, EdgesPhase, c, inp, rec);
    if c == ScriptsCopy {
      var ps: seq<Phase> := [RegisterPhase, NodesPhase, EdgesPhase, EmbeddingsPhase];
      assert Phases(c) == ps;
      assert ps[1..] == [NodesPhase, EdgesPhase, EmbeddingsPhase];
      assert ps[1..][1..] == [EdgesPhase, EmbeddingsPhase];
      assert ps[1..][1..][1..] == [EmbeddingsPhase];
      assert ps[1..][1..][1..][1..] == [];
      var s4 := RunPhase(s3, EmbeddingsPhase, c, inp, rec);
      assert RunPhases(s3, [EmbeddingsPhase], c, inp, rec) == RunPhases(s4, [], c, inp, rec);
    } else {
      var ps: seq<Phase> := [RegisterPhase, NodesPhase, EdgesPhase];
      assert Phases(c) == ps;
      assert ps[1..] == [NodesPhase, EdgesPhase];
      assert ps[1..][1..] == [EdgesPhase];
      assert ps[1..][1..][1..] == [];
      assert RunPhases(s2, [EdgesPhase], c, inp, rec) == RunPhases(s3, [], c, inp, rec);
    }
  }

  /** Without an escaping exception a run ends in the state the copy's
      phases reach one after another from the rebuilt graph. */
  lemma RunLoaderFinal(c: Copy, prior: Option<Graph>, inp: Inputs, rec: Recovery)
    requires inp.crash.None?
    ensures var s3 := ThreePhases(c, inp, rec);
      var f := if c == ScriptsCopy then RunPhase(s3, EmbeddingsPhase, c, inp, rec) else s3;
      && RunLoader(c, prior, inp, rec).graph == f.graph
      && RunLoader(c, prior, inp, rec).replies == f.replies
      && RunLoader(c, prior, inp, rec).index == f.index
  {
    RunUnroll(c, inp, rec);
  }

  /** A run without an escaping exception: the graph is the registration
      result with the node loads and then the edge loads applied. */
  lemma UninterruptedRun(c: Copy, prior: Option<Graph>, inp: Inputs, rec: Recovery)
    requires inp.crash.None?
    ensures var reg := RegisterLabels(EmptyGraph, LabelOrder, inp.fault, rec);
      && RunLoader(c, prior, inp, rec).replies == reg.replies
      && RunLoader(c, prior, inp, rec).graph
         == LoadDir(LoadDir(reg.graph, Vertices, NodesDir(c), inp.nodes), Edges, EdgesDir(c), inp.edges)
  {
    RunUnroll(c, inp, rec);
    EmbeddingPhaseKeepsGraph(ThreePhases(c, inp, rec), c, inp, rec);
  }

  /** A complete run with no registration fault registers all 17 labels,
      each reported as registered. */
  lemma CleanRunLabels(c: Copy, prior: Option<Graph>, inp: Inputs, rec: Recovery)
    requires inp.crash.None?
    requires forall l :: l in LabelOrder ==> inp.fault(l).None?
    ensures RunLoader(c, prior, inp, rec).graph.labels == set l | l in LabelOrder
    ensures |RunLoader(c, prior, inp, rec).replies| == 17
    ensures forall i :: 0 <= i < 17 ==> RunLoader(c, prior, inp, rec).replies[i] == Registered
  {
    FreshGraphRegistersAll(inp.fault, rec);
    UninterruptedRun(c, prior, inp, rec);
  }

  /** A run without an escaping exception leaves exactly the successful node
      files' loads followed by the successful edge files' loads. */
  lemma UninterruptedRunLoads(c: Copy, prior: Option<Graph>, inp: Inputs, rec: Recovery)
    requires inp.crash.None?
    ensures RunLoader(c, prior, inp, rec).graph.loads
         == DirLoads(inp.nodes, Vertices, NodesDir(c)) + DirLoads(inp.edges, Edges, EdgesDir(c))
  {
    UninterruptedRun(c, prior, inp, rec);
    var reg := RegisterLabels(EmptyGraph, LabelOrder, inp.fault, rec);
    var g1 := LoadDir(reg.graph, Vertices, NodesDir(c), inp.nodes);
    assert g1.loads == DirLoads(inp.nodes, Vertices, NodesDir(c));
  }

  /** The loads with their file paths dropped: what ends up in the graph
      regardless of where the CSV directory is. */
  function Unrooted(loads: seq<Load>): (r: seq<(Kind, string)>)
    ensures |r| == |loads|
    ensures forall i :: 0 <= i < |loads| ==> r[i] == (loads[i].kind, loads[i].labelName)
  {
    seq(|loads|, i requires 0 <= i < |loads| => (loads[i].kind, loads[i].labelName))
  }

  lemma UnrootedAppend(a: seq<Load>, b: seq<Load>)
    ensures Unrooted(a + b) == Unrooted(a) + Unrooted(b)
  {
    assert forall i :: 0 <= i < |a + b| ==> Unrooted(a + b)[i] == (Unrooted(a) + Unrooted(b))[i];
  }

  /** The directory a listing is read from changes the recorded paths only. */
  lemma {:induction false} LoadedSameLabels(es: seq<DirEntry>, kind: Kind, d1: string, d2: string)
    ensures Unrooted(Loaded(es, kind, d1)) == Unrooted(Loaded(es, kind, d2))
    decreases |es|
  {
    if 0 < |es| {
      LoadedSameLabels(es[1..], kind, d1, d2);
    }
  }

  /** Given the same listings and faults, the three copies build the same
      graph up to file paths and print the same registration reports. */
  lemma CopiesAgree(c1: Copy, c2: Copy, prior: Option<Graph>, inp: Inputs, rec: Recovery)
    requires inp.crash.None?
    ensures RunLoader(c1, prior, inp, rec).graph.labels == RunLoader(c2, prior, inp, rec).graph.labels
    ensures RunLoader(c1, prior, inp, rec).replies == RunLoader(c2, prior, inp, rec).replies
    ensures Unrooted(RunLoader(c1, prior, inp, rec).graph.loads) == Unrooted(RunLoader(c2, prior, inp, rec).graph.loads)
  {
    UninterruptedRun(c1, prior, inp, rec);
    UninterruptedRun(c2, prior, inp, rec);
    UninterruptedRunLoads(c1, prior, inp, rec);
    UninterruptedRunLoads(c2, prior, inp, rec);
    if inp.nodes.Entries? {
      LoadedSameLabels(inp.nodes.entries, Vertices, NodesDir(c1), NodesDir(c2));
    }
    if inp.edges.Entries? {
      LoadedSameLabels(inp.edges.entries, Edges, EdgesDir(c1), EdgesDir(c2));
    }
    UnrootedAppend(DirLoads(inp.nodes, Vertices, NodesDir(c1)), DirLoads(inp.edges, Edges, EdgesDir(c1)));
    UnrootedAppend(DirLoads(inp.nodes, Vertices, NodesDir(c2)), DirLoads(inp.edges, Edges, EdgesDir(c2)));
  }


  /** When neither CSV directory exists the run loads nothing. */
  lemma MissingDirectoriesLoadNothing(c: Copy, prior: Option<Graph>, inp: Inputs, rec: Recovery)
    requires inp.crash.None? && inp.nodes.Missing? && inp.edges.Missing?
    ensures RunLoader(c, prior, inp, rec).graph.loads == []
  {
    UninterruptedRunLoads(c, prior, inp, rec);
  }

  /** Only the scripts copy computes embeddings: its uninterrupted run leaves
      the vector table the embedding pass produced (as written, or with each
      failed statement undone on its own), and the other copies leave the
      table as it was. */
  lemma OnlyScriptsEmbeds(c: Copy, prior: Option<Graph>, inp: Inputs, rec: Recovery)
    requires inp.crash.None?
    ensures var e := inp.embedding;
      c != ScriptsCopy ==> RunLoader(c, prior, inp, rec).index == e.start
    ensures var e := inp.embedding;
      c == ScriptsCopy && rec == Savepoint ==>
        RunLoader(c, prior, inp, rec).index == ScriptsEmbedder(e.tableOk, e.labels, e.svc, e.commits, e.start).table
    ensures var e := inp.embedding;
      c == ScriptsCopy && rec == AsWritten ==>
        RunLoader(c, prior, inp, rec).index == ScriptsEmbedderAsWritten(e.tableOk, e.labels, e.svc, e.commits, e.start).table
  {
    RunLoaderFinal(c, prior, inp, rec);
    var s3 := ThreePhases(c, inp, rec);
    assert !s3.stopped && s3.index == inp.embedding.start;
  }
}
