/** The batch loop shared by `add_vector_embeddings` in db/node_embedder.py and
    its variant in db/scripts/csv_loader.py: a node list folded, batch by
    batch, into the `document_vectors` table, modelled as a map from id to
    row. The embedding service, the store's verdict on each insert and each
    batch commit's outcome are inputs.

    PostgreSQL's transaction rule is part of the model: once a statement of
    the open transaction fails, every later statement fails too, and the
    closing `COMMIT` ends the transaction as a rollback. */
module Indexer {
  import opened Wrappers
  import opened Seqs
  import opened Maps
  import opened Text
  import opened Batching

  /** Width of the `embedding vector(1536)` column. */
  const Dimension: nat := 1536

  type Vector = seq<real>

  /** One node as a label query returns it: id, name (possibly NULL), label. */
  datatype NodeRow = NodeRow(id: string, name: Option<string>, nodeLabel: string)

  /** The non-key columns of a `document_vectors` row. */
  datatype Entry = Entry(name: string, nodeLabel: string, embedding: Vector)

  /** `document_vectors`, keyed on its primary key `id`. */
  type Index = map<string, Entry>

  /** SQL type of the `id` column: `TEXT` (db/node_embedder.py) or `UUID`
      (db/scripts/csv_loader.py). */
  datatype IdColumn = TextId | UuidId

  /** What decides a single node's fate besides its own fields. Whether the
      commit of batch `k` succeeds is a separate input, `commits(k)`. */
  datatype Services = Services(
    embed: string -> Option<Vector>,   // the embedding request; None when it raises
    storeAccepts: NodeRow -> bool)     // the INSERT ... ON CONFLICT statement succeeds

  /** How a failed statement inside the per-node `try` is recovered from.
      `AsWritten`: the `except` clause only logs, so the transaction stays
      aborted until the batch's `commit()`. `Savepoint`: each failed statement
      is undone on its own and the rest of the batch is unaffected. */
  datatype Recovery = AsWritten | Savepoint

  // ---------------------------------------------------------------------
  // One node
  // ---------------------------------------------------------------------

  /** `not node_name or node_name.strip() == ''`. */
  predicate IsBlankName(name: Option<string>)
  {
    name.None? || name.value == [] || Strip(name.value, IsSpace) == []
  }

  /** A name is blank exactly when it is NULL or made of whitespace only. */
  lemma BlankMeansWhitespace(name: Option<string>)
    ensures IsBlankName(name) <==>
      name.None? || forall k :: 0 <= k < |name.value| ==> IsSpace(name.value[k])
  {
    if name.Some? {
      StripEmptyIff(name.value, IsSpace);
    }
  }

  /** `f"{node_label}: {node_name}"`. */
  function EmbedText(nodeLabel: string, name: string): string
  {
    nodeLabel + ": " + name
  }

  /** The embedded text determines the name once the label is known. */
  lemma EmbedTextNameRecoverable(nodeLabel: string, name1: string, name2: string)
    requires EmbedText(nodeLabel, name1) == EmbedText(nodeLabel, name2)
    ensures name1 == name2
  {
    assert name1 == EmbedText(nodeLabel, name1)[|nodeLabel| + 2..];
    assert name2 == EmbedText(nodeLabel, name2)[|nodeLabel| + 2..];
  }

  predicate IsHexDigit(c: char)
  {
    ('0' <= c <= '9') || ('a' <= c <= 'f') || ('A' <= c <= 'F')
  }

  function HexDigitCount(s: string): (n: nat)
    ensures n <= |s|
    decreases |s|
  {
    if |s| == 0 then 0 else (if IsHexDigit(s[0]) then 1 else 0) + HexDigitCount(s[1..])
  }

  /** A text PostgreSQL's `uuid` input could accept: 32 hexadecimal digits,
      and otherwise only hyphens and braces. (A necessary condition: the
      positions of hyphens and braces are not checked.) */
  predicate UuidShaped(s: string)
  {
    && HexDigitCount(s) == 32
    && forall k :: 0 <= k < |s| ==> IsHexDigit(s[k]) || s[k] == '-' || s[k] == '{' || s[k] == '}'
  }

  predicate ColumnAccepts(col: IdColumn, id: string)
  {
    match col
    case TextId => true
    case UuidId => UuidShaped(id)
  }

  /** What happens to one node when its statements run on a healthy
      transaction: skipped for a blank name, lost to a failed embedding
      request (which leaves the transaction alone), rejected by the store
      (which aborts it), or upserted. */
  datatype Step = Skipped | EmbedFailed | Rejected | Upserted(entry: Entry)

  /** The body of the per-node `try`. A vector of the wrong width, an id the
      column cannot hold and any other store error are rejections. */
  function Attempt(n: NodeRow, svc: Services, col: IdColumn): (o: Step)
    ensures o.Skipped? <==> IsBlankName(n.name)
    ensures o.EmbedFailed? <==>
      !IsBlankName(n.name) && svc.embed(EmbedText(n.nodeLabel, n.name.value)).None?
    ensures o.Upserted? <==>
      && !IsBlankName(n.name)
      && svc.embed(EmbedText(n.nodeLabel, n.name.value)).Some?
      && |svc.embed(EmbedText(n.nodeLabel, n.name.value)).value| == Dimension
      && ColumnAccepts(col, n.id)
      && svc.storeAccepts(n)
    ensures o.Upserted? ==>
      o.entry == Entry(n.name.value, n.nodeLabel, svc.embed(EmbedText(n.nodeLabel, n.name.value)).value)
  {
    if IsBlankName(n.name) then Skipped
    else
      match svc.embed(EmbedText(n.nodeLabel, n.name.value))
      case None => EmbedFailed
      case Some(v) =>
        if |v| == Dimension && ColumnAccepts(col, n.id) && svc.storeAccepts(n) then
          Upserted(Entry(n.name.value, n.nodeLabel, v))
        else
          Rejected
  }

  // ---------------------------------------------------------------------
  // Reference definitions: what a node list writes, counts and requests
  // when every statement runs on a healthy transaction
  // ---------------------------------------------------------------------

  function IdsOf(xs: seq<NodeRow>): set<string>
  {
    set n | n in xs :: n.id
  }

  /** The row one node upserts, if it upserts one. */
  function Written(n: NodeRow, svc: Services, col: IdColumn): (w: Index)
    ensures w.Keys <= {n.id}
  {
    match Attempt(n, svc, col)
    case Upserted(e) => map[n.id := e]
    case _ => map[]
  }

  /** The rows a node list upserts, later upserts of an id replacing earlier ones. */
  function Writes(xs: seq<NodeRow>, svc: Services, col: IdColumn): (w: Index)
    ensures w.Keys <= IdsOf(xs)
    decreases |xs|
  {
    if |xs| == 0 then map[]
    else
      var rest := Writes(xs[1..], svc, col);
      assert IdsOf(xs[1..]) <= IdsOf(xs) by {
        forall id | id in IdsOf(xs[1..]) ensures id in IdsOf(xs) {
          var n :| n in xs[1..] && n.id == id;
          assert n in xs;
        }
      }
      assert xs[0] in xs;
      Written(xs[0], svc, col) + rest
  }

  /** Number of successful upserts. */
  function Successes(xs: seq<NodeRow>, svc: Services, col: IdColumn): (c: nat)
    ensures c <= |xs|
    decreases |xs|
  {
    if |xs| == 0 then 0
    else (if Attempt(xs[0], svc, col).Upserted? then 1 else 0) + Successes(xs[1..], svc, col)
  }

  /** The texts sent to the embedding service, in order: one per non-blank node. */
  function Requests(xs: seq<NodeRow>): seq<string>
    decreases |xs|
  {
    if |xs| == 0 then []
    else if IsBlankName(xs[0].name) then Requests(xs[1..])
    else [EmbedText(xs[0].nodeLabel, xs[0].name.value)] + Requests(xs[1..])
  }

  /** No node of `xs` is rejected by the store. */
  predicate Clean(xs: seq<NodeRow>, svc: Services, col: IdColumn)
  {
    forall j :: 0 <= j < |xs| ==> !Attempt(xs[j], svc, col).Rejected?
  }

  /** Position of the first node the store rejects, or `|xs|` if none is. */
  function FirstRejected(xs: seq<NodeRow>, svc: Services, col: IdColumn): (f: nat)
    ensures f <= |xs|
    ensures forall j :: 0 <= j < f ==> !Attempt(xs[j], svc, col).Rejected?
    ensures f < |xs| ==> Attempt(xs[f], svc, col).Rejected?
    decreases |xs|
  {
    if |xs| == 0 || Attempt(xs[0], svc, col).Rejected? then 0
    else 1 + FirstRejected(xs[1..], svc, col)
  }

  /** The nodes of a batch whose statements run on a healthy transaction: none
      if the batch starts aborted; all of them under `Savepoint`; as written,
      those before the first rejection. */
  function Survivors(batch: seq<NodeRow>, svc: Services, col: IdColumn, rec: Recovery, aborted: bool): (ys: seq<NodeRow>)
    ensures ys <= batch
  {
    if aborted then []
    else if rec == Savepoint then batch
    else batch[..FirstRejected(batch, svc, col)]
  }

  lemma {:induction false} WritesAppend(a: seq<NodeRow>, b: seq<NodeRow>, svc: Services, col: IdColumn)
    ensures Writes(a + b, svc, col) == Writes(a, svc, col) + Writes(b, svc, col)
    decreases |a|
  {
    if |a| == 0 {
      assert a + b == b;
      UnionEmpty(Writes(b, svc, col));
    } else {
      assert (a + b)[0] == a[0];
      assert (a + b)[1..] == a[1..] + b;
      WritesAppend(a[1..], b, svc, col);
      UnionAssoc(Written(a[0], svc, col), Writes(a[1..], svc, col), Writes(b, svc, col));
    }
  }

  lemma {:induction false} SuccessesAppend(a: seq<NodeRow>, b: seq<NodeRow>, svc: Services, col: IdColumn)
    ensures Successes(a + b, svc, col) == Successes(a, svc, col) + Successes(b, svc, col)
    decreases |a|
  {
    if |a| == 0 {
      assert a + b == b;
    } else {
      assert (a + b)[0] == a[0];
      assert (a + b)[1..] == a[1..] + b;
      SuccessesAppend(a[1..], b, svc, col);
    }
  }

  lemma {:induction false} RequestsAppend(a: seq<NodeRow>, b: seq<NodeRow>)
    ensures Requests(a + b) == Requests(a) + Requests(b)
    decreases |a|
  {
    if |a| == 0 {
      assert a + b == b;
    } else {
      assert (a + b)[0] == a[0];
      assert (a + b)[1..] == a[1..] + b;
      RequestsAppend(a[1..], b);
      if !IsBlankName(a[0].name) {
        ConcatAssoc([EmbedText(a[0].nodeLabel, a[0].name.value)], Requests(a[1..]), Requests(b));
      }
    }
  }

  lemma CleanAppend(a: seq<NodeRow>, b: seq<NodeRow>, svc: Services, col: IdColumn)
    ensures Clean(a + b, svc, col) <==> Clean(a, svc, col) && Clean(b, svc, col)
  {
    assert forall j :: 0 <= j < |a| ==> (a + b)[j] == a[j];
    assert forall j :: 0 <= j < |b| ==> (a + b)[|a| + j] == b[j];
  }

  /** A prefix never has more successes than the whole list. */
  lemma {:induction false} SuccessesPrefix(xs: seq<NodeRow>, ys: seq<NodeRow>, svc: Services, col: IdColumn)
    requires ys <= xs
    ensures Successes(ys, svc, col) <= Successes(xs, svc, col)
  {
    assert xs == ys + xs[|ys|..];
    SuccessesAppend(ys, xs[|ys|..], svc, col);
  }

  /** Past a node the store accepts, the first rejection is one further on. */
  lemma FirstRejectedCons(batch: seq<NodeRow>, svc: Services, col: IdColumn)
    requires 0 < |batch| && !Attempt(batch[0], svc, col).Rejected?
    ensures FirstRejected(batch, svc, col) == 1 + FirstRejected(batch[1..], svc, col)
  {
  }

  /** How the surviving prefix grows by one node on a healthy transaction. */
  lemma {:induction false} SurvivorsStep(batch: seq<NodeRow>, svc: Services, col: IdColumn, rec: Recovery)
    requires 0 < |batch|
    ensures rec == AsWritten && Attempt(batch[0], svc, col).Rejected? ==>
      Survivors(batch, svc, col, rec, false) == []
    ensures !(rec == AsWritten && Attempt(batch[0], svc, col).Rejected?) ==>
      Survivors(batch, svc, col, rec, false) == [batch[0]] + Survivors(batch[1..], svc, col, rec, false)
  {
    if rec == Savepoint {
      assert batch == [batch[0]] + batch[1..];
    } else if !Attempt(batch[0], svc, col).Rejected? {
      var f := FirstRejected(batch[1..], svc, col);
      FirstRejectedCons(batch, svc, col);
      Seqs.ConsTake(batch, f);
    }
  }

  lemma WritesCons(n: NodeRow, xs: seq<NodeRow>, svc: Services, col: IdColumn)
    ensures Writes([n] + xs, svc, col) == Written(n, svc, col) + Writes(xs, svc, col)
    ensures Successes([n] + xs, svc, col) == Successes([n], svc, col) + Successes(xs, svc, col)
  {
    assert ([n] + xs)[0] == n;
    assert ([n] + xs)[1..] == xs;
    assert [n][1..] == [];
  }

  // ---------------------------------------------------------------------
  // The fold
  // ---------------------------------------------------------------------

  /** The indexer's state: the committed table, the open transaction's
      uncommitted upserts, whether that transaction is aborted,
      `embedded_count`, and the embedding requests made so far. */
  datatype Progress = Progress(committed: Index, pending: Index, aborted: bool, count: nat, requests: seq<string>)

  /** One iteration of the inner loop. */
  function ProcessNode(s: Progress, n: NodeRow, svc: Services, col: IdColumn, rec: Recovery): (r: Progress)
    ensures r.committed == s.committed
    ensures r.requests == s.requests + Requests([n])
    ensures r.aborted == (s.aborted || (rec == AsWritten && Attempt(n, svc, col).Rejected?))
    ensures !s.aborted ==> r.pending == s.pending + Written(n, svc, col)
    ensures !s.aborted ==> r.count == s.count + Successes([n], svc, col)
    ensures s.aborted ==> r.pending == s.pending && r.count == s.count
  {
    assert [n][1..] == [];
    var asked := if IsBlankName(n.name) then [] else [EmbedText(n.nodeLabel, n.name.value)];
    UnionEmpty(s.pending);
    match Attempt(n, svc, col)
    case Upserted(e) =>
      if s.aborted then s.(requests := s.requests + asked)
      else s.(pending := s.pending[n.id := e], count := s.count + 1, requests := s.requests + asked)
    case Rejected =>
      s.(aborted := s.aborted || rec == AsWritten, requests := s.requests + asked)
    case _ =>
      s.(requests := s.requests + asked)
  }

  /** The inner `for` loop over one batch. */
  function ProcessBatch(s: Progress, batch: seq<NodeRow>, svc: Services, col: IdColumn, rec: Recovery): (r: Progress)
    ensures r.committed == s.committed
    decreases |batch|
  {
    if |batch| == 0 then s
    else ProcessBatch(ProcessNode(s, batch[0], svc, col, rec), batch[1..], svc, col, rec)
  }

  /** As written, a rejection anywhere in the batch leaves its transaction aborted. */
  lemma {:induction false} ProcessBatchAborted(s: Progress, batch: seq<NodeRow>, svc: Services, col: IdColumn, rec: Recovery)
    ensures ProcessBatch(s, batch, svc, col, rec).aborted
         == (s.aborted || (rec == AsWritten && !Clean(batch, svc, col)))
    decreases |batch|
  {
    if 0 < |batch| {
      ProcessBatchAborted(ProcessNode(s, batch[0], svc, col, rec), batch[1..], svc, col, rec);
      assert batch == [batch[0]] + batch[1..];
      CleanAppend([batch[0]], batch[1..], svc, col);
    }
  }

  /** The open transaction holds the upserts of the surviving nodes, each
      overwriting any earlier row for its id. */
  lemma {:induction false} ProcessBatchPending(s: Progress, batch: seq<NodeRow>, svc: Services, col: IdColumn, rec: Recovery)
    ensures ProcessBatch(s, batch, svc, col, rec).pending
         == s.pending + Writes(Survivors(batch, svc, col, rec, s.aborted), svc, col)
    decreases |batch|
  {
    var ys := Survivors(batch, svc, col, rec, s.aborted);
    if |batch| == 0 || s.aborted {
      if 0 < |batch| {
        ProcessBatchPending(ProcessNode(s, batch[0], svc, col, rec), batch[1..], svc, col, rec);
      }
      assert ys == [];
      UnionEmpty(s.pending);
    } else {
      var t := ProcessNode(s, batch[0], svc, col, rec);
      ProcessBatchPending(t, batch[1..], svc, col, rec);
      SurvivorsStep(batch, svc, col, rec);
      if rec == AsWritten && Attempt(batch[0], svc, col).Rejected? {
        UnionEmpty(s.pending);
      } else {
        var zs := Survivors(batch[1..], svc, col, rec, false);
        WritesCons(batch[0], zs, svc, col);
        UnionAssoc(s.pending, Written(batch[0], svc, col), Writes(zs, svc, col));
      }
    }
  }

  /** `embedded_count` grows by one per upsert of a surviving node. */
  lemma {:induction false} ProcessBatchCount(s: Progress, batch: seq<NodeRow>, svc: Services, col: IdColumn, rec: Recovery)
    ensures ProcessBatch(s, batch, svc, col, rec).count
         == s.count + Successes(Survivors(batch, svc, col, rec, s.aborted), svc, col)
    decreases |batch|
  {
    if 0 < |batch| {
      var t := ProcessNode(s, batch[0], svc, col, rec);
      ProcessBatchCount(t, batch[1..], svc, col, rec);
      if !s.aborted {
        SurvivorsStep(batch, svc, col, rec);
        if !(rec == AsWritten && Attempt(batch[0], svc, col).Rejected?) {
          WritesCons(batch[0], Survivors(batch[1..], svc, col, rec, false), svc, col);
        }
      }
    }
  }

  /** Embedding requests go out in node order, one per non-blank node, even
      when the transaction is aborted: the request precedes the insert. */
  lemma {:induction false} ProcessBatchRequests(s: Progress, batch: seq<NodeRow>, svc: Services, col: IdColumn, rec: Recovery)
    ensures ProcessBatch(s, batch, svc, col, rec).requests == s.requests + Requests(batch)
    decreases |batch|
  {
    if |batch| == 0 {
      assert s.requests + [] == s.requests;
    } else {
      ProcessBatchRequests(ProcessNode(s, batch[0], svc, col, rec), batch[1..], svc, col, rec);
      assert batch == [batch[0]] + batch[1..];
      RequestsAppend([batch[0]], batch[1..]);
      ConcatAssoc(s.requests, Requests([batch[0]]), Requests(batch[1..]));
    }
  }

  /** The batch commit. On an aborted transaction PostgreSQL turns `COMMIT`
      into a rollback; a failing commit is rolled back by the `except`
      clause. Either way the next batch starts a fresh transaction. */
  function CommitBatch(s: Progress, k: nat, commits: nat -> bool): (r: Progress)
    ensures r.pending == map[] && !r.aborted
    ensures r.count == s.count && r.requests == s.requests
    ensures commits(k) && !s.aborted ==> r.committed == s.committed + s.pending
    ensures !(commits(k) && !s.aborted) ==> r.committed == s.committed
  {
    if commits(k) && !s.aborted then s.(committed := s.committed + s.pending, pending := map[])
    else s.(pending := map[], aborted := false)
  }

  /** What the batches from number `k` on leave durable: a batch's upserts
      survive exactly when it starts on a healthy transaction, none of its
      statements aborts it, and its commit succeeds. */
  function CommittedWrites(bs: seq<seq<NodeRow>>, k: nat, svc: Services, commits: nat -> bool,
                           col: IdColumn, rec: Recovery, aborted: bool): Index
    decreases |bs|
  {
    if |bs| == 0 then map[]
    else
      (if commits(k) && !aborted && (rec == Savepoint || Clean(bs[0], svc, col)) then Writes(bs[0], svc, col) else map[])
        + CommittedWrites(bs[1..], k + 1, svc, commits, col, rec, false)
  }

  /** What `embedded_count` ends at: the successes among each batch's survivors. */
  function EmbeddedCount(bs: seq<seq<NodeRow>>, svc: Services, col: IdColumn, rec: Recovery, aborted: bool): (c: nat)
    ensures c <= |Flatten(bs)|
    decreases |bs|
  {
    if |bs| == 0 then 0
    else Successes(Survivors(bs[0], svc, col, rec, aborted), svc, col) + EmbeddedCount(bs[1..], svc, col, rec, false)
  }

  /** The outer `for` loop, batch `k` first. */
  function RunBatches(s: Progress, bs: seq<seq<NodeRow>>, k: nat, svc: Services, commits: nat -> bool,
                      col: IdColumn, rec: Recovery): (r: Progress)
    requires s.pending == map[]
    ensures r.pending == map[]
    decreases |bs|
  {
    if |bs| == 0 then s
    else RunBatches(CommitBatch(ProcessBatch(s, bs[0], svc, col, rec), k, commits), bs[1..], k + 1, svc, commits, col, rec)
  }

  /** One turn of the outer loop: process batch `k`, then commit or roll back. */
  lemma RunBatchesUnfold(s: Progress, bs: seq<seq<NodeRow>>, k: nat, svc: Services, commits: nat -> bool,
                         col: IdColumn, rec: Recovery)
    requires s.pending == map[] && 0 < |bs|
    ensures RunBatches(s, bs, k, svc, commits, col, rec)
         == RunBatches(CommitBatch(ProcessBatch(s, bs[0], svc, col, rec), k, commits), bs[1..], k + 1, svc, commits, col, rec)
  {
  }

  /** A batch that starts healthy and that no statement aborts keeps all its nodes. */
  lemma SurvivorsAll(batch: seq<NodeRow>, svc: Services, col: IdColumn, rec: Recovery)
    requires rec == Savepoint || Clean(batch, svc, col)
    ensures Survivors(batch, svc, col, rec, false) == batch
  {
    if rec == AsWritten {
      assert FirstRejected(batch, svc, col) == |batch|;
    }
  }

  lemma {:induction false} RunBatchesCommitted(s: Progress, bs: seq<seq<NodeRow>>, k: nat, svc: Services,
                                               commits: nat -> bool, col: IdColumn, rec: Recovery)
    requires s.pending == map[]
    ensures RunBatches(s, bs, k, svc, commits, col, rec).committed
         == s.committed + CommittedWrites(bs, k, svc, commits, col, rec, s.aborted)
    decreases |bs|
  {
    if |bs| == 0 {
      UnionEmpty(s.committed);
    } else {
      var p := ProcessBatch(s, bs[0], svc, col, rec);
      var t := CommitBatch(p, k, commits);
      var ok := commits(k) && !s.aborted && (rec == Savepoint || Clean(bs[0], svc, col));
      var here := if ok then Writes(bs[0], svc, col) else map[];
      var later := CommittedWrites(bs[1..], k + 1, svc, commits, col, rec, false);
      ProcessBatchAborted(s, bs[0], svc, col, rec);
      ProcessBatchPending(s, bs[0], svc, col, rec);
      UnionEmpty(s.committed);
      if ok {
        SurvivorsAll(bs[0], svc, col, rec);
        UnionEmpty(Writes(bs[0], svc, col));
      }
      assert t.committed == s.committed + here;
      RunBatchesUnfold(s, bs, k, svc, commits, col, rec);
      RunBatchesCommitted(t, bs[1..], k + 1, svc, commits, col, rec);
      UnionAssoc(s.committed, here, later);
    }
  }

  /** The counter is bumped before the commit, so it ignores commit failures. */
  lemma {:induction false} RunBatchesCount(s: Progress, bs: seq<seq<NodeRow>>, k: nat, svc: Services,
                                           commits: nat -> bool, col: IdColumn, rec: Recovery)
    requires s.pending == map[]
    ensures RunBatches(s, bs, k, svc, commits, col, rec).count == s.count + EmbeddedCount(bs, svc, col, rec, s.aborted)
    decreases |bs|
  {
    if 0 < |bs| {
      var t := CommitBatch(ProcessBatch(s, bs[0], svc, col, rec), k, commits);
      ProcessBatchCount(s, bs[0], svc, col, rec);
      RunBatchesUnfold(s, bs, k, svc, commits, col, rec);
      RunBatchesCount(t, bs[1..], k + 1, svc, commits, col, rec);
    }
  }

  lemma FlattenRequests(bs: seq<seq<NodeRow>>)
    requires 0 < |bs|
    ensures Requests(Flatten(bs)) == Requests(bs[0]) + Requests(Flatten(bs[1..]))
  {
    RequestsAppend(bs[0], Flatten(bs[1..]));
  }

  lemma {:induction false} RunBatchesRequests(s: Progress, bs: seq<seq<NodeRow>>, k: nat, svc: Services,
                                              commits: nat -> bool, col: IdColumn, rec: Recovery)
    requires s.pending == map[]
    ensures RunBatches(s, bs, k, svc, commits, col, rec).requests == s.requests + Requests(Flatten(bs))
    decreases |bs|
  {
    if |bs| == 0 {
      assert s.requests + [] == s.requests;
    } else {
      var t := CommitBatch(ProcessBatch(s, bs[0], svc, col, rec), k, commits);
      ProcessBatchRequests(s, bs[0], svc, col, rec);
      RunBatchesUnfold(s, bs, k, svc, commits, col, rec);
      RunBatchesRequests(t, bs[1..], k + 1, svc, commits, col, rec);
      FlattenRequests(bs);
      ConcatAssoc(s.requests, Requests(bs[0]), Requests(Flatten(bs[1..])));
    }
  }

  /** The batched fold over a node list, starting from table `start`, on a
      transaction that is `aborted` or healthy. */
  function IndexNodes(nodes: seq<NodeRow>, svc: Services, commits: nat -> bool, col: IdColumn,
                      rec: Recovery, aborted: bool, start: Index): (r: Progress)
    ensures r.committed == start + CommittedWrites(Batches(nodes), 0, svc, commits, col, rec, aborted)
    ensures r.count == EmbeddedCount(Batches(nodes), svc, col, rec, aborted)
    ensures r.count <= |nodes|
    ensures r.requests == Requests(nodes)
  {
    var s := Progress(start, map[], aborted, 0, []);
    RunBatchesCommitted(s, Batches(nodes), 0, svc, commits, col, rec);
    RunBatchesCount(s, Batches(nodes), 0, svc, commits, col, rec);
    RunBatchesRequests(s, Batches(nodes), 0, svc, commits, col, rec);
    RunBatches(s, Batches(nodes), 0, svc, commits, col, rec)
  }

  // ---------------------------------------------------------------------
  // Properties of the fold
  // ---------------------------------------------------------------------

  /** An id no node upserts gets no row. */
  lemma {:induction false} WritesMissing(xs: seq<NodeRow>, svc: Services, col: IdColumn, id: string)
    requires forall j :: 0 <= j < |xs| && xs[j].id == id ==> !Attempt(xs[j], svc, col).Upserted?
    ensures id !in Writes(xs, svc, col)
    decreases |xs|
  {
    if 0 < |xs| {
      assert forall j :: 0 <= j < |xs[1..]| ==> xs[1..][j] == xs[j + 1];
      WritesMissing(xs[1..], svc, col, id);
    }
  }

  /** The row a node list leaves for an id is the one its last successful
      upsert of that id wrote. */
  lemma {:induction false} WritesLatest(xs: seq<NodeRow>, svc: Services, col: IdColumn, i: int)
    requires 0 <= i < |xs| && Attempt(xs[i], svc, col).Upserted?
    requires forall j :: i < j < |xs| && xs[j].id == xs[i].id ==> !Attempt(xs[j], svc, col).Upserted?
    ensures xs[i].id in Writes(xs, svc, col)
    ensures Writes(xs, svc, col)[xs[i].id] == Attempt(xs[i], svc, col).entry
    decreases |xs|
  {
    var id := xs[i].id;
    if i == 0 {
      assert forall j :: 0 <= j < |xs[1..]| ==> xs[1..][j] == xs[j + 1];
      WritesMissing(xs[1..], svc, col, id);
    } else {
      assert xs[1..][i - 1] == xs[i];
      assert forall j :: i - 1 < j < |xs[1..]| ==> xs[1..][j] == xs[j + 1];
      WritesLatest(xs[1..], svc, col, i - 1);
    }
  }

  /** A list in which nothing upserts writes nothing and counts nothing. */
  lemma {:induction false} NoUpsertsNoWrites(xs: seq<NodeRow>, svc: Services, col: IdColumn)
    requires forall j :: 0 <= j < |xs| ==> !Attempt(xs[j], svc, col).Upserted?
    ensures Writes(xs, svc, col) == map[]
    ensures Successes(xs, svc, col) == 0
    decreases |xs|
  {
    if 0 < |xs| {
      assert forall j :: 0 <= j < |xs[1..]| ==> xs[1..][j] == xs[j + 1];
      NoUpsertsNoWrites(xs[1..], svc, col);
      assert !Attempt(xs[0], svc, col).Upserted?;
      UnionEmpty(Writes(xs[1..], svc, col));
    }
  }

  /** Only what the node list writes can become durable. */
  lemma {:induction false} CommittedKeys(bs: seq<seq<NodeRow>>, k: nat, svc: Services, commits: nat -> bool,
                                         col: IdColumn, rec: Recovery, aborted: bool)
    ensures CommittedWrites(bs, k, svc, commits, col, rec, aborted).Keys <= Writes(Flatten(bs), svc, col).Keys
    decreases |bs|
  {
    if 0 < |bs| {
      CommittedKeys(bs[1..], k + 1, svc, commits, col, rec, false);
      WritesAppend(bs[0], Flatten(bs[1..]), svc, col);
    }
  }

  /** When every batch commits and no rejection aborts a batch, the durable
      rows are exactly what the node list writes. */
  lemma {:induction false} CommittedHealthy(bs: seq<seq<NodeRow>>, k: nat, svc: Services, commits: nat -> bool,
                                            col: IdColumn, rec: Recovery)
    requires forall j :: k <= j < k + |bs| ==> commits(j)
    requires rec == Savepoint || Clean(Flatten(bs), svc, col)
    ensures CommittedWrites(bs, k, svc, commits, col, rec, false) == Writes(Flatten(bs), svc, col)
    decreases |bs|
  {
    if 0 < |bs| {
      assert commits(k);
      CleanAppend(bs[0], Flatten(bs[1..]), svc, col);
      CommittedHealthy(bs[1..], k + 1, svc, commits, col, rec);
      WritesAppend(bs[0], Flatten(bs[1..]), svc, col);
    }
  }

  lemma {:induction false} CountHealthy(bs: seq<seq<NodeRow>>, svc: Services, col: IdColumn, rec: Recovery)
    requires rec == Savepoint || Clean(Flatten(bs), svc, col)
    ensures EmbeddedCount(bs, svc, col, rec, false) == Successes(Flatten(bs), svc, col)
    decreases |bs|
  {
    if 0 < |bs| {
      CleanAppend(bs[0], Flatten(bs[1..]), svc, col);
      SurvivorsAll(bs[0], svc, col, rec);
      CountHealthy(bs[1..], svc, col, rec);
      SuccessesAppend(bs[0], Flatten(bs[1..]), svc, col);
    }
  }

  lemma {:induction false} CountAtMostSuccesses(bs: seq<seq<NodeRow>>, svc: Services, col: IdColumn, rec: Recovery, aborted: bool)
    ensures EmbeddedCount(bs, svc, col, rec, aborted) <= Successes(Flatten(bs), svc, col)
    decreases |bs|
  {
    if 0 < |bs| {
      SuccessesPrefix(bs[0], Survivors(bs[0], svc, col, rec, aborted), svc, col);
      CountAtMostSuccesses(bs[1..], svc, col, rec, false);
      SuccessesAppend(bs[0], Flatten(bs[1..]), svc, col);
    }
  }

  /** `embedded_count` never exceeds the number of nodes whose upsert would
      succeed on its own. */
  lemma CountBound(nodes: seq<NodeRow>, svc: Services, commits: nat -> bool, col: IdColumn,
                   rec: Recovery, aborted: bool, start: Index)
    ensures IndexNodes(nodes, svc, commits, col, rec, aborted, start).count <= Successes(nodes, svc, col)
  {
    CountAtMostSuccesses(Batches(nodes), svc, col, rec, aborted);
  }

  /** Starting healthy, and with no rejection or with each failure undone on
      its own, `embedded_count` is the number of successful upserts, whatever
      the commits do. */
  lemma HealthyCount(nodes: seq<NodeRow>, svc: Services, commits: nat -> bool, col: IdColumn,
                     rec: Recovery, start: Index)
    requires rec == Savepoint || Clean(nodes, svc, col)
    ensures IndexNodes(nodes, svc, commits, col, rec, false, start).count == Successes(nodes, svc, col)
  {
    CountHealthy(Batches(nodes), svc, col, rec);
  }

  /** Rows of ids no node carries are left exactly as they were. */
  lemma UntouchedIdsPreserved(nodes: seq<NodeRow>, svc: Services, commits: nat -> bool, col: IdColumn,
                              rec: Recovery, aborted: bool, start: Index, id: string)
    requires id !in IdsOf(nodes)
    ensures id in IndexNodes(nodes, svc, commits, col, rec, aborted, start).committed <==> id in start
    ensures id in start ==> IndexNodes(nodes, svc, commits, col, rec, aborted, start).committed[id] == start[id]
  {
    CommittedKeys(Batches(nodes), 0, svc, commits, col, rec, aborted);
  }

  /** With every batch commit succeeding and the run starting healthy, the
      table ends as `start` overwritten by each node's upsert, provided no
      rejection aborts a batch or each failure is undone on its own. */
  lemma AllCommitsDurable(nodes: seq<NodeRow>, svc: Services, commits: nat -> bool, col: IdColumn,
                          rec: Recovery, start: Index)
    requires forall j :: 0 <= j < |Batches(nodes)| ==> commits(j)
    requires rec == Savepoint || Clean(nodes, svc, col)
    ensures IndexNodes(nodes, svc, commits, col, rec, false, start).committed == start + Writes(nodes, svc, col)
  {
    CommittedHealthy(Batches(nodes), 0, svc, commits, col, rec);
  }

  /** `ON CONFLICT (id) DO UPDATE` keeps the last row written for an id. */
  lemma LatestUpsertWins(nodes: seq<NodeRow>, svc: Services, commits: nat -> bool, col: IdColumn,
                         rec: Recovery, start: Index, i: int)
    requires forall j :: 0 <= j < |Batches(nodes)| ==> commits(j)
    requires rec == Savepoint || Clean(nodes, svc, col)
    requires 0 <= i < |nodes| && Attempt(nodes[i], svc, col).Upserted?
    requires forall j :: i < j < |nodes| && nodes[j].id == nodes[i].id ==> !Attempt(nodes[j], svc, col).Upserted?
    ensures nodes[i].id in IndexNodes(nodes, svc, commits, col, rec, false, start).committed
    ensures IndexNodes(nodes, svc, commits, col, rec, false, start).committed[nodes[i].id]
         == Attempt(nodes[i], svc, col).entry
  {
    AllCommitsDurable(nodes, svc, commits, col, rec, start);
    WritesLatest(nodes, svc, col, i);
  }

  /** Re-indexing is harmless: a second run with the same services leaves
      the table as the first run left it. */
  lemma ReindexIdempotent(nodes: seq<NodeRow>, svc: Services, commits: nat -> bool, col: IdColumn,
                          rec: Recovery, aborted: bool, start: Index)
    ensures var once := IndexNodes(nodes, svc, commits, col, rec, aborted, start);
      IndexNodes(nodes, svc, commits, col, rec, aborted, once.committed).committed == once.committed
  {
    var c := CommittedWrites(Batches(nodes), 0, svc, commits, col, rec, aborted);
    UnionAssoc(start, c, c);
    UnionSelf(c);
  }

  /** A node list in which nothing upserts leaves the table alone and reports zero. */
  lemma NothingUpsertedNothingStored(nodes: seq<NodeRow>, svc: Services, commits: nat -> bool, col: IdColumn,
                                     rec: Recovery, aborted: bool, start: Index)
    requires forall j :: 0 <= j < |nodes| ==> !Attempt(nodes[j], svc, col).Upserted?
    ensures IndexNodes(nodes, svc, commits, col, rec, aborted, start).committed == start
    ensures IndexNodes(nodes, svc, commits, col, rec, aborted, start).count == 0
  {
    NoUpsertsNoWrites(nodes, svc, col);
    CommittedKeys(Batches(nodes), 0, svc, commits, col, rec, aborted);
    CountAtMostSuccesses(Batches(nodes), svc, col, rec, aborted);
    UnionEmpty(start);
  }

  /** As written, one rejected insert loses its whole batch: a batch that
      starts healthy and contains a rejection commits nothing, although
      `embedded_count` still counts the upserts made before the rejection. */
  lemma RejectionDiscardsBatch(nodes: seq<NodeRow>, svc: Services, commits: nat -> bool, col: IdColumn, start: Index)
    requires 0 < |nodes| <= BatchSize
    requires !Clean(nodes, svc, col)
    ensures IndexNodes(nodes, svc, commits, col, AsWritten, false, start).committed == start
    ensures IndexNodes(nodes, svc, commits, col, AsWritten, false, start).count
         == Successes(nodes[..FirstRejected(nodes, svc, col)], svc, col)
  {
    var none: Index := map[];
    assert Batches(nodes) == [nodes];
    assert [nodes][1..] == [];
    assert CommittedWrites([], 1, svc, commits, col, AsWritten, false) == none;
    UnionEmpty(none);
    assert CommittedWrites([nodes], 0, svc, commits, col, AsWritten, false) == none;
    UnionEmpty(start);
  }
}

