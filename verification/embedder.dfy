/** `add_vector_embeddings` around the batch loop: table creation, the
    vertex-label listing, one node query per label, then the batches. Two
    copies exist: db/node_embedder.py, with a `TEXT` id column, and
    db/scripts/csv_loader.py, whose node query filters out missing and empty
    names in SQL and whose id column is `UUID`. */
module Embedder {
  import opened Wrappers
  import opened Maps
  import Seqs
  import opened Store
  import opened Batching
  import opened Indexer

  /** One vertex label's node query, and what it returns on a healthy
      transaction. */
  datatype LabelScan = LabelScan(labelName: string, nodes: Fetch<seq<NodeRow>>)

  /** The rows of every successful label query, label by label. */
  function CollectNodes(scans: seq<LabelScan>): (xs: seq<NodeRow>)
    ensures forall n :: n in xs <==>
      exists i :: 0 <= i < |scans| && scans[i].nodes.Fetched? && n in scans[i].nodes.rows
    decreases |scans|
  {
    if |scans| == 0 then []
    else
      var here := match scans[0].nodes case Fetched(rows) => rows case Failed(_) => [];
      var rest := CollectNodes(scans[1..]);
      assert forall i :: 0 < i < |scans| ==> scans[i] == scans[1..][i - 1];
      here + rest
  }

  /** The label loop's `all_nodes.extend`: the rows of the labels listed
      first come first, in query order, each as often as it is returned. */
  lemma {:induction false} CollectNodesAppend(a: seq<LabelScan>, b: seq<LabelScan>)
    ensures CollectNodes(a + b) == CollectNodes(a) + CollectNodes(b)
    decreases |a|
  {
    if |a| == 0 {
      assert a + b == b;
    } else {
      var here := match a[0].nodes case Fetched(rows) => rows case Failed(_) => [];
      assert (a + b)[0] == a[0];
      assert (a + b)[1..] == a[1..] + b;
      CollectNodesAppend(a[1..], b);
      Seqs.ConcatAssoc(here, CollectNodes(a[1..]), CollectNodes(b));
    }
  }

  /** A single label query contributes its rows, in order, or nothing if it fails. */
  lemma CollectNodesOne(scan: LabelScan)
    ensures CollectNodes([scan]) == if scan.nodes.Fetched? then scan.nodes.rows else []
  {
    assert [scan][1..] == [];
  }

  /** Position of the first label query that fails, or `|scans|` if none does. */
  function FirstFailedScan(scans: seq<LabelScan>): (f: nat)
    ensures f <= |scans|
    ensures forall j :: 0 <= j < f ==> scans[j].nodes.Fetched?
    ensures f < |scans| ==> scans[f].nodes.Failed?
    decreases |scans|
  {
    if |scans| == 0 || scans[0].nodes.Failed? then 0 else 1 + FirstFailedScan(scans[1..])
  }

  /** The node list the label loop builds, and whether it leaves the
      transaction aborted. */
  datatype Gathered = Gathered(nodes: seq<NodeRow>, aborted: bool)

  /** The `for label_name, ... in vertex_labels` loop. As written, the
      `except` clause only logs a failed query, so the transaction stays
      aborted and every later label query fails as well; with `Savepoint`
      a failed query is undone and the loop carries on. */
  function Gather(scans: seq<LabelScan>, rec: Recovery): (g: Gathered)
    ensures rec == Savepoint ==> g == Gathered(CollectNodes(scans), false)
    ensures rec == AsWritten ==>
      && g.nodes == CollectNodes(scans[..FirstFailedScan(scans)])
      && g.aborted == (FirstFailedScan(scans) < |scans|)
    decreases |scans|
  {
    if |scans| == 0 then Gathered([], false)
    else
      match scans[0].nodes
      case Failed(_) =>
        if rec == AsWritten then
          assert scans[..0] == [];
          Gathered([], true)
        else
          Gather(scans[1..], rec)
      case Fetched(rows) =>
        var g := Gather(scans[1..], rec);
        var f := FirstFailedScan(scans[1..]);
        var front := [scans[0]] + scans[1..][..f];
        assert scans[..1 + f] == front;
        assert front[0] == scans[0] && front[1..] == scans[1..][..f];
        Gathered(rows + g.nodes, g.aborted)
  }

  /** Where a run stopped: table creation failed, the label listing failed,
      the graph has no vertex labels, or the batches ran. */
  datatype Outcome = TableFailed | LabelsFailed | NoLabels | Embedded

  /** The table a run leaves, `embedded_count`, and the texts it asked to embed. */
  datatype Report = Report(table: Index, count: nat, requests: seq<string>, outcome: Outcome)

  /** `add_vector_embeddings` after `CREATE EXTENSION`: `tableOk` is whether
      `CREATE TABLE IF NOT EXISTS` succeeded, `labels` the vertex-label
      listing with each label's node query, `col` the id column's type. */
  function EmbedAll(tableOk: bool, labels: Fetch<seq<LabelScan>>, svc: Services, commits: nat -> bool,
                    col: IdColumn, rec: Recovery, start: Index): (r: Report)
    ensures r.outcome == TableFailed <==> !tableOk
    ensures r.outcome == LabelsFailed <==> tableOk && labels.Failed?
    ensures r.outcome == Embedded <==> tableOk && labels.Fetched? && 0 < |labels.rows|
    ensures !r.outcome.Embedded? ==> r.table == start && r.count == 0 && r.requests == []
    ensures r.outcome.Embedded? ==>
      var g := Gather(labels.rows, rec);
      && r.table == start + CommittedWrites(Batches(g.nodes), 0, svc, commits, col, rec, g.aborted)
      && r.count == EmbeddedCount(Batches(g.nodes), svc, col, rec, g.aborted)
      && r.requests == Requests(g.nodes)
  {
    if !tableOk then Report(start, 0, [], TableFailed)
    else
      match labels
      case Failed(_) => Report(start, 0, [], LabelsFailed)
      case Fetched(scans) =>
        if |scans| == 0 then Report(start, 0, [], NoLabels)
        else
          var g := Gather(scans, rec);
          var p := IndexNodes(g.nodes, svc, commits, col, rec, g.aborted, start);
          Report(p.committed, p.count, p.requests, Embedded)
  }

  // ---------------------------------------------------------------------
  // The two copies
  // ---------------------------------------------------------------------

  /** db/node_embedder.py as written. */
  function NodeEmbedderAsWritten(tableOk: bool, labels: Fetch<seq<LabelScan>>, svc: Services,
                                 commits: nat -> bool, start: Index): (r: Report)
    ensures r.outcome.Embedded? <==> tableOk && labels.Fetched? && 0 < |labels.rows|
  {
    EmbedAll(tableOk, labels, svc, commits, TextId, AsWritten, start)
  }

  /** db/node_embedder.py with each failed statement undone on its own. */
  function NodeEmbedder(tableOk: bool, labels: Fetch<seq<LabelScan>>, svc: Services,
                        commits: nat -> bool, start: Index): (r: Report)
    ensures r.outcome.Embedded? <==> tableOk && labels.Fetched? && 0 < |labels.rows|
  {
    EmbedAll(tableOk, labels, svc, commits, TextId, Savepoint, start)
  }

  /** The SQL condition `properties->>'name' IS NOT NULL AND properties->>'name' != ''`. */
  predicate HasSqlName(n: NodeRow)
  {
    n.name.Some? && n.name.value != []
  }

  /** The rows the scripts variant's node query lets through, in order. */
  function SqlNameFilter(xs: seq<NodeRow>): (ys: seq<NodeRow>)
    ensures forall n :: n in ys <==> n in xs && HasSqlName(n)
    ensures |ys| <= |xs|
    decreases |xs|
  {
    if |xs| == 0 then []
    else
      var rest := SqlNameFilter(xs[1..]);
      assert forall n :: n in xs <==> n == xs[0] || n in xs[1..];
      if HasSqlName(xs[0]) then [xs[0]] + rest else rest
  }

  lemma {:induction false} SqlNameFilterAppend(a: seq<NodeRow>, b: seq<NodeRow>)
    ensures SqlNameFilter(a + b) == SqlNameFilter(a) + SqlNameFilter(b)
    decreases |a|
  {
    if |a| == 0 {
      assert a + b == b;
    } else {
      assert (a + b)[0] == a[0];
      assert (a + b)[1..] == a[1..] + b;
      SqlNameFilterAppend(a[1..], b);
      if HasSqlName(a[0]) {
        Seqs.ConcatAssoc([a[0]], SqlNameFilter(a[1..]), SqlNameFilter(b));
      }
    }
  }

  /** The SQL filter only removes nodes the Python loop skips anyway, so it
      changes neither the writes, nor the successes, nor the requests, and it
      removes no rejection. */
  lemma {:induction false} SqlNameFilterInert(xs: seq<NodeRow>, svc: Services, col: IdColumn)
    ensures Writes(SqlNameFilter(xs), svc, col) == Writes(xs, svc, col)
    ensures Successes(SqlNameFilter(xs), svc, col) == Successes(xs, svc, col)
    ensures Requests(SqlNameFilter(xs)) == Requests(xs)
    decreases |xs|
  {
    if 0 < |xs| {
      var ys := SqlNameFilter(xs[1..]);
      SqlNameFilterInert(xs[1..], svc, col);
      if HasSqlName(xs[0]) {
        assert ([xs[0]] + ys)[0] == xs[0];
        assert ([xs[0]] + ys)[1..] == ys;
      } else {
        assert IsBlankName(xs[0].name);
        UnionEmpty(Writes(xs[1..], svc, col));
      }
    }
  }

  /** Each label query of the scripts variant, with the SQL filter applied. */
  function FilterScans(scans: seq<LabelScan>): (r: seq<LabelScan>)
    ensures |r| == |scans|
    ensures forall i :: 0 <= i < |scans| ==> r[i].labelName == scans[i].labelName
    ensures forall i :: 0 <= i < |scans| ==> r[i].nodes.Fetched? == scans[i].nodes.Fetched?
    ensures forall i :: 0 <= i < |scans| && scans[i].nodes.Fetched? ==>
      r[i].nodes.rows == SqlNameFilter(scans[i].nodes.rows)
  {
    seq(|scans|, i requires 0 <= i < |scans| =>
      match scans[i].nodes
      case Fetched(rows) => LabelScan(scans[i].labelName, Fetched(SqlNameFilter(rows)))
      case Failed(_) => scans[i])
  }

  /** Filtering each label's rows filters the collected list. */
  lemma {:induction false} CollectFiltered(scans: seq<LabelScan>)
    ensures CollectNodes(FilterScans(scans)) == SqlNameFilter(CollectNodes(scans))
    decreases |scans|
  {
    if 0 < |scans| {
      var here := match scans[0].nodes case Fetched(rows) => rows case Failed(_) => [];
      assert FilterScans(scans)[1..] == FilterScans(scans[1..]);
      CollectFiltered(scans[1..]);
      SqlNameFilterAppend(here, CollectNodes(scans[1..]));
    }
  }

  function FilterListing(labels: Fetch<seq<LabelScan>>): (r: Fetch<seq<LabelScan>>)
    ensures r.Fetched? == labels.Fetched?
    ensures r.Fetched? ==> r.rows == FilterScans(labels.rows)
  {
    match labels
    case Fetched(scans) => Fetched(FilterScans(scans))
    case Failed(m) => Failed(m)
  }

  /** db/scripts/csv_loader.py as written: filtered node queries into a
      table whose id column is `UUID`. */
  function ScriptsEmbedderAsWritten(tableOk: bool, labels: Fetch<seq<LabelScan>>, svc: Services,
                                    commits: nat -> bool, start: Index): (r: Report)
    ensures r.outcome.Embedded? <==> tableOk && labels.Fetched? && 0 < |labels.rows|
  {
    EmbedAll(tableOk, FilterListing(labels), svc, commits, UuidId, AsWritten, start)
  }

  /** db/scripts/csv_loader.py with the id column declared `TEXT`, as in
      db/node_embedder.py, and each failed statement undone on its own. */
  function ScriptsEmbedder(tableOk: bool, labels: Fetch<seq<LabelScan>>, svc: Services,
                           commits: nat -> bool, start: Index): (r: Report)
    ensures r.outcome.Embedded? <==> tableOk && labels.Fetched? && 0 < |labels.rows|
  {
    EmbedAll(tableOk, FilterListing(labels), svc, commits, TextId, Savepoint, start)
  }

  // ---------------------------------------------------------------------
  // Properties
  // ---------------------------------------------------------------------

  /** With failures undone one by one, every label's nodes are embedded:
      the count is the number of successful upserts over all labels, and
      with every commit succeeding the table holds each node's last upsert. */
  lemma SavepointEmbedsEveryLabel(tableOk: bool, labels: Fetch<seq<LabelScan>>, svc: Services,
                                  commits: nat -> bool, start: Index)
    requires tableOk && labels.Fetched? && 0 < |labels.rows|
    ensures NodeEmbedder(tableOk, labels, svc, commits, start).count
         == Successes(CollectNodes(labels.rows), svc, TextId)
    ensures NodeEmbedder(tableOk, labels, svc, commits, start).requests == Requests(CollectNodes(labels.rows))
    ensures (forall j :: commits(j)) ==>
      NodeEmbedder(tableOk, labels, svc, commits, start).table == start + Writes(CollectNodes(labels.rows), svc, TextId)
  {
    var nodes := CollectNodes(labels.rows);
    HealthyCount(nodes, svc, commits, TextId, Savepoint, start);
    if forall j :: commits(j) {
      AllCommitsDurable(nodes, svc, commits, TextId, Savepoint, start);
    }
  }

  /** As written, a failing first label query hides every later label: the
      run embeds nothing and asks for nothing, whatever the other queries
      would have returned. */
  lemma FailedScanHidesLaterLabels(labels: Fetch<seq<LabelScan>>, svc: Services, commits: nat -> bool, start: Index)
    requires labels.Fetched? && 0 < |labels.rows| && labels.rows[0].nodes.Failed?
    ensures NodeEmbedderAsWritten(true, labels, svc, commits, start).table == start
    ensures NodeEmbedderAsWritten(true, labels, svc, commits, start).count == 0
    ensures NodeEmbedderAsWritten(true, labels, svc, commits, start).requests == []
  {
    var none: seq<NodeRow> := [];
    assert Batches(none) == [];
    UnionEmpty(start);
  }

  /** A graph id as `id::text` prints it: the decimal digits of a positive
      64-bit integer. */
  predicate IsGraphIdText(s: string)
  {
    0 < |s| <= 19 && forall k :: 0 <= k < |s| ==> '0' <= s[k] <= '9'
  }

  /** No graph id text has the 32 hexadecimal digits a `uuid` needs. */
  lemma GraphIdNotUuid(s: string)
    requires IsGraphIdText(s)
    ensures !UuidShaped(s)
  {
  }

  lemma CollectPrefix(scans: seq<LabelScan>, f: nat, n: NodeRow)
    requires f <= |scans|
    requires n in CollectNodes(scans[..f])
    ensures n in CollectNodes(scans)
  {
    var i :| 0 <= i < f && scans[..f][i].nodes.Fetched? && n in scans[..f][i].nodes.rows;
    assert scans[i] == scans[..f][i];
  }

  /** Into a fresh `UUID`-keyed table every upsert of a graph id fails: the
      scripts variant as written stores nothing and reports zero. */
  lemma UuidColumnStoresNothing(tableOk: bool, labels: Fetch<seq<LabelScan>>, svc: Services,
                                commits: nat -> bool, start: Index)
    requires labels.Fetched? ==> forall n :: n in CollectNodes(labels.rows) ==> IsGraphIdText(n.id)
    ensures ScriptsEmbedderAsWritten(tableOk, labels, svc, commits, start).table == start
    ensures ScriptsEmbedderAsWritten(tableOk, labels, svc, commits, start).count == 0
  {
    if tableOk && labels.Fetched? && 0 < |labels.rows| {
      var scans := FilterScans(labels.rows);
      var g := Gather(scans, AsWritten);
      CollectFiltered(labels.rows);
      forall j | 0 <= j < |g.nodes|
        ensures !Attempt(g.nodes[j], svc, UuidId).Upserted?
      {
        CollectPrefix(scans, FirstFailedScan(scans), g.nodes[j]);
        GraphIdNotUuid(g.nodes[j].id);
      }
      NothingUpsertedNothingStored(g.nodes, svc, commits, UuidId, AsWritten, g.aborted, start);
    }
  }

  /** With a `TEXT` id column, and given identical node rows, the scripts
      variant does what db/node_embedder.py does: same stop, same count, same
      requests, and the same table when every commit succeeds. (For one graph
      the two copies' queries return different id, name and label text.) */
  lemma ScriptsMatchesEmbedder(tableOk: bool, labels: Fetch<seq<LabelScan>>, svc: Services,
                               commits: nat -> bool, start: Index)
    ensures ScriptsEmbedder(tableOk, labels, svc, commits, start).outcome
         == NodeEmbedder(tableOk, labels, svc, commits, start).outcome
    ensures ScriptsEmbedder(tableOk, labels, svc, commits, start).count
         == NodeEmbedder(tableOk, labels, svc, commits, start).count
    ensures ScriptsEmbedder(tableOk, labels, svc, commits, start).requests
         == NodeEmbedder(tableOk, labels, svc, commits, start).requests
    ensures (forall j :: commits(j)) ==>
      ScriptsEmbedder(tableOk, labels, svc, commits, start).table == NodeEmbedder(tableOk, labels, svc, commits, start).table
  {
    if tableOk && labels.Fetched? && 0 < |labels.rows| {
      var nodes := CollectNodes(labels.rows);
      var kept := CollectNodes(FilterScans(labels.rows));
      CollectFiltered(labels.rows);
      SqlNameFilterInert(nodes, svc, TextId);
      HealthyCount(nodes, svc, commits, TextId, Savepoint, start);
      HealthyCount(kept, svc, commits, TextId, Savepoint, start);
      if forall j :: commits(j) {
        AllCommitsDurable(nodes, svc, commits, TextId, Savepoint, start);
        AllCommitsDurable(kept, svc, commits, TextId, Savepoint, start);
      }
    }
  }
}
