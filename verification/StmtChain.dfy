/** The statement list as the linked nodes it is: removeNOPs and the splicing step of
    cnfstmtOptimizePRIFilt, which relink and overwrite nodes in place. */
module StmtChain {

  /** A cnfstmt: its content, of which only "is a NOP" matters here, and its successor. */
  class Node<T> {
    var nop: bool
    var data: T
    var next: Node?<T>

    constructor (nop: bool, data: T, next: Node?<T>)
      ensures this.nop == nop && this.data == data && this.next == next
    {
      this.nop, this.data, this.next := nop, data, next;
    }
  }

  datatype Cell<T> = Cell(nop: bool, data: T)

  predicate Distinct<T>(chain: seq<Node<T>>) {
    forall i, j :: 0 <= i < j < |chain| ==> chain[i] != chain[j]
  }

  /** `chain` is what is reached from `root` by following `next`. */
  predicate IsChain<T>(root: Node?<T>, chain: seq<Node<T>>)
    reads chain
  {
    && root == (if chain == [] then null else chain[0])
    && forall i :: 0 <= i < |chain| ==> chain[i].next == if i + 1 < |chain| then chain[i + 1] else null
  }

  function Contents<T>(chain: seq<Node<T>>): (c: seq<Cell<T>>)
    reads chain
  {
    seq(|chain|, i requires 0 <= i < |chain| reads chain => Cell(chain[i].nop, chain[i].data))
  }

  function NonNops<T>(cells: seq<Cell<T>>): (r: seq<Cell<T>>)
    ensures forall i :: 0 <= i < |r| ==> !r[i].nop
  {
    if cells == [] then []
    else if cells[0].nop then NonNops(cells[1..])
    else [cells[0]] + NonNops(cells[1..])
  }

  lemma {:induction false} NonNopsAppend<T>(a: seq<Cell<T>>, c: Cell<T>)
    ensures NonNops(a + [c]) == NonNops(a) + if c.nop then [] else [c]
  {
    if a == [] {
      assert a + [c] == [c] && [c][1..] == [];
    } else {
      assert (a + [c])[1..] == a[1..] + [c];
      NonNopsAppend(a[1..], c);
    }
  }

  ghost predicate Increasing(idx: seq<nat>, k: nat) {
    && (forall i :: 0 <= i < |idx| ==> idx[i] < k)
    && (forall i, j :: 0 <= i < j < |idx| ==> idx[i] < idx[j])
  }

  ghost function Pick<X>(s: seq<X>, idx: seq<nat>): (r: seq<X>)
    requires forall i :: 0 <= i < |idx| ==> idx[i] < |s|
  {
    seq(|idx|, i requires 0 <= i < |idx| => s[idx[i]])
  }

  /** The nodes from the k-th on are untouched; those at `idx` before it are linked up, the
      last of them, `prev`, to nothing or to the k-th. */
  ghost predicate Walk<T>(chain: seq<Node<T>>, k: nat, idx: seq<nat>, prev: Node?<T>)
    requires k <= |chain|
    reads chain
  {
    && Increasing(idx, k)
    && (forall i :: k <= i < |chain| ==> chain[i].next == if i + 1 < |chain| then chain[i + 1] else null)
    && (forall i :: 0 <= i < |idx| - 1 ==> chain[idx[i]].next == chain[idx[i + 1]])
    && prev == (if idx == [] then null else chain[idx[|idx| - 1]])
    && (prev != null ==> prev.next == null || (k < |chain| && prev.next == chain[k]))
  }

  /** The nodes hold these contents. */
  ghost predicate Hold<T>(chain: seq<Node<T>>, cells: seq<Cell<T>>)
    reads chain
  {
    |cells| == |chain| && forall i :: 0 <= i < |chain| ==> chain[i].nop == cells[i].nop && chain[i].data == cells[i].data
  }

  lemma WalkAt<T>(chain: seq<Node<T>>, k: nat, idx: seq<nat>, prev: Node?<T>)
    requires k < |chain| && Walk(chain, k, idx, prev)
    ensures chain[k].next == if k + 1 < |chain| then chain[k + 1] else null
    ensures Increasing(idx, k) && (prev != null ==> prev in chain)
  {
  }

  method EndChain<T>(prev: Node?<T>, ghost chain: seq<Node<T>>, ghost k: nat, ghost idx: seq<nat>,
                   ghost cells: seq<Cell<T>>)
    requires k < |chain| && Distinct(chain) && Walk(chain, k, idx, prev) && Hold(chain, cells)
    modifies if prev != null then {prev} else {}
    ensures Walk(chain, k + 1, idx, prev) && chain[k].next == old(chain[k].next)
    ensures Hold(chain, cells)
  {
    if prev != null {
      assert prev == chain[idx[|idx| - 1]];
      prev.next := null;
    }
  }

  method ExtendChain<T>(prev: Node?<T>, stmt: Node<T>, ghost chain: seq<Node<T>>, ghost k: nat, ghost idx: seq<nat>,
                   ghost cells: seq<Cell<T>>)
    requires k < |chain| && Distinct(chain) && Walk(chain, k, idx, prev) && Hold(chain, cells) && stmt == chain[k]
    modifies if prev != null then {prev} else {}
    ensures Walk(chain, k + 1, idx + [k], stmt) && stmt.next == old(stmt.next)
    ensures Hold(chain, cells)
  {
    if prev != null {
      assert prev == chain[idx[|idx| - 1]];
      prev.next := stmt;
    }
    ghost var idx' := idx + [k];
    assert forall i :: k < i < |chain| ==> chain[i] != prev;
    assert chain[k] != prev && stmt.next == if k + 1 < |chain| then chain[k + 1] else null;
    forall i | 0 <= i < |idx'| - 1 ensures chain[idx'[i]].next == chain[idx'[i + 1]] {
      assert i < |idx| - 1 ==> chain[idx[i]] != prev;
    }
  }

  lemma PickStep<T>(cells: seq<Cell<T>>, idx: seq<nat>, k: nat)
    requires k < |cells| && Increasing(idx, k) && NonNops(cells[..k]) == Pick(cells, idx)
    ensures NonNops(cells[..k + 1]) == Pick(cells, if cells[k].nop then idx else idx + [k])
  {
    NonNopsAppend(cells[..k], cells[k]);
    assert cells[..k + 1] == cells[..k] + [cells[k]];
  }

  /** What is kept of the first k nodes: those that are no NOPs, the first of them the root. */
  ghost predicate Kept<T>(chain: seq<Node<T>>, idx: seq<nat>, k: nat, cells: seq<Cell<T>>, newRoot: Node?<T>) {
    && k <= |chain| == |cells| && Increasing(idx, k)
    && newRoot == (if idx == [] then null else chain[idx[0]])
    && NonNops(cells[..k]) == Pick(cells, idx)
  }

  lemma WalkStart<T>(root: Node?<T>, chain: seq<Node<T>>)
    requires IsChain(root, chain)
    ensures Walk(chain, 0, [], null) && Hold(chain, Contents(chain)) && Kept(chain, [], 0, Contents(chain), null)
    ensures |Contents(chain)| == |chain|
  {
  }

  lemma KeptStep<T>(chain: seq<Node<T>>, idx: seq<nat>, k: nat, cells: seq<Cell<T>>, newRoot: Node?<T>)
    requires k < |chain| && Kept(chain, idx, k, cells, newRoot) && Hold(chain, cells)
    ensures chain[k].nop ==> Kept(chain, idx, k + 1, cells, newRoot)
    ensures !chain[k].nop ==> Kept(chain, idx + [k], k + 1, cells, if newRoot == null then chain[k] else newRoot)
  {
    PickStep(cells, idx, k);
    hide NonNops, Pick;
    assert chain[k].nop == cells[k].nop;
    assert idx != [] ==> (idx + [k])[0] == idx[0];
  }

  lemma WalkDone<T>(chain: seq<Node<T>>, idx: seq<nat>, prev: Node?<T>, newRoot: Node?<T>, cells: seq<Cell<T>>)
    returns (kept: seq<Node<T>>)
    requires Distinct(chain) && Walk(chain, |chain|, idx, prev) && Hold(chain, cells)
    requires Kept(chain, idx, |chain|, cells, newRoot)
    ensures IsChain(newRoot, kept) && Distinct(kept)
    ensures forall i :: 0 <= i < |kept| ==> kept[i] in chain
    ensures Contents(kept) == NonNops(cells)
  {
    hide NonNops;
    kept := Pick(chain, idx);
    var picked := Pick(cells, idx);
    assert cells[..|chain|] == cells;
    forall i | 0 <= i < |idx| ensures Contents(kept)[i] == picked[i] {
      assert kept[i] == chain[idx[i]];
      assert Contents(kept)[i] == Cell(kept[i].nop, kept[i].data);
    }
  }

  /** removeNOPs: the chain from the result holds exactly the statements that are no NOPs,
      in order and in their old nodes. */
  method RemoveNops<T>(root: Node?<T>, ghost chain: seq<Node<T>>)
    returns (newRoot: Node?<T>, ghost kept: seq<Node<T>>)
    requires IsChain(root, chain) && Distinct(chain)
    modifies chain
    ensures IsChain(newRoot, kept) && Distinct(kept)
    ensures forall i :: 0 <= i < |kept| ==> kept[i] in chain
    ensures Contents(kept) == NonNops(old(Contents(chain)))
  {
    hide Walk, Hold, Pick, NonNops, Contents, Increasing;
    newRoot := null;
    var prevstmt: Node?<T> := null;
    var stmt := root;
    ghost var k: nat, idx: seq<nat> := 0, [];
    ghost var cells := Contents(chain);
    WalkStart(root, chain);
    while stmt != null
      invariant k <= |chain| && Walk(chain, k, idx, prevstmt) && Hold(chain, cells) && |cells| == |chain|
      invariant stmt == if k < |chain| then chain[k] else null
      invariant Kept(chain, idx, k, cells, newRoot)
      decreases |chain| - k
    {
      WalkAt(chain, k, idx, prevstmt);
      KeptStep(chain, idx, k, cells, newRoot);
      if stmt.nop {
        EndChain(prevstmt, chain, k, idx, cells);
      } else {
        if newRoot == null { newRoot := stmt; }
        ExtendChain(prevstmt, stmt, chain, k, idx, cells);
        prevstmt, idx := stmt, idx + [k];
      }
      stmt, k := stmt.next, k + 1;
    }
    kept := WalkDone(chain, idx, prevstmt, newRoot, cells);
  }

  lemma ChainNext<T>(root: Node?<T>, chain: seq<Node<T>>, k: nat)
    requires IsChain(root, chain) && k < |chain|
    ensures chain[k].next == if k + 1 < |chain| then chain[k + 1] else null
  {
  }

  method FindLast<T>(subroot: Node<T>, ghost sub: seq<Node<T>>) returns (last: Node<T>)
    requires IsChain(subroot, sub)
    ensures last == sub[|sub| - 1]
  {
    last := subroot;
    ghost var k := 0;
    assert sub != [] && last == sub[0];
    ChainNext(subroot, sub, 0);
    while last.next != null
      invariant 0 <= k < |sub| && last == sub[k]
      invariant last.next == if k + 1 < |sub| then sub[k + 1] else null
      decreases |sub| - k
    {
      last := last.next;
      k := k + 1;
      ChainNext(subroot, sub, k);
    }
  }

  lemma SpliceDone<T>(stmt: Node<T>, sub: seq<Node<T>>, rest: seq<Node<T>>)
    requires |sub| > 0
    requires forall i :: 0 <= i < |rest| ==> rest[i].next == if i + 1 < |rest| then rest[i + 1] else null
    requires forall i :: 1 <= i < |sub| - 1 ==> sub[i].next == sub[i + 1]
    requires sub[|sub| - 1].next == if rest == [] then null else rest[0]
    requires stmt.next == if |sub| > 1 then sub[1] else if rest == [] then null else rest[0]
    ensures IsChain(stmt, [stmt] + sub[1..] + rest)
  {
    var list := [stmt] + sub[1..] + rest;
    assert forall i :: 1 <= i < |sub| ==> list[i] == sub[i];
    assert forall i :: |sub| <= i < |list| ==> list[i] == rest[i - |sub|];
    forall i | 0 <= i < |list| ensures list[i].next == if i + 1 < |list| then list[i + 1] else null {
      if i >= |sub| {
        assert rest[i - |sub|].next == if i - |sub| + 1 < |rest| then rest[i - |sub| + 1] else null;
      } else if 1 <= i < |sub| - 1 {
        assert sub[i].next == sub[i + 1];
      }
    }
    assert list[0] == stmt && IsChain(stmt, list);
  }

  lemma SpliceContents<T>(stmt: Node<T>, sub: seq<Node<T>>, rest: seq<Node<T>>, a: seq<Cell<T>>, b: seq<Cell<T>>)
    requires 0 < |sub| == |a| && |rest| == |b| && Cell(stmt.nop, stmt.data) == a[0]
    requires forall i :: 0 <= i < |sub| ==> Cell(sub[i].nop, sub[i].data) == a[i]
    requires forall i :: 0 <= i < |rest| ==> Cell(rest[i].nop, rest[i].data) == b[i]
    ensures Contents([stmt] + sub[1..] + rest) == a + b
  {
    var list := [stmt] + sub[1..] + rest;
    forall i | 0 <= i < |list| ensures Contents(list)[i] == (a + b)[i] {
      if 1 <= i < |sub| {
        assert list[i] == sub[i];
      } else if i >= |sub| {
        assert list[i] == rest[i - |sub|];
      }
      assert Contents(list)[i] == Cell(list[i].nop, list[i].data);
    }
  }

  /** The splicing step of cnfstmtOptimizePRIFilt: the filter's then list `sub` is put before
      what follows the filter, and its first statement is copied into the filter's node. */
  method Splice<T>(stmt: Node<T>, subroot: Node<T>, ghost sub: seq<Node<T>>, ghost rest: seq<Node<T>>)
    requires IsChain(subroot, sub) && IsChain(stmt.next, rest)
    requires Distinct(sub) && Distinct(rest) && stmt !in sub && stmt !in rest
    requires forall i, j :: 0 <= i < |sub| && 0 <= j < |rest| ==> sub[i] != rest[j]
    modifies stmt, sub
    ensures IsChain(stmt, [stmt] + sub[1..] + rest)
    ensures Contents([stmt] + sub[1..] + rest) == old(Contents(sub)) + old(Contents(rest))
  {
    assert sub != [] && sub[0] == subroot;
    ChainNext(subroot, sub, 0);
    var last := FindLast(subroot, sub);
    ghost var n := |sub| - 1;
    assert forall i, j :: 0 <= i < j < |sub| ==> sub[i] != sub[j];
    ghost var a, b := Contents(sub), Contents(rest);
    assert forall j :: 0 <= j < |rest| ==> rest[j] != last && rest[j] != stmt;
    last.next := stmt.next;
    stmt.nop, stmt.data, stmt.next := subroot.nop, subroot.data, subroot.next;
    assert forall i :: 1 <= i < n ==> sub[i].next == sub[i + 1];
    assert sub[n].next == if rest == [] then null else rest[0];
    assert stmt.next == if n > 0 then sub[1] else if rest == [] then null else rest[0];
    assert forall j :: 0 <= j < |rest| ==> rest[j].next == if j + 1 < |rest| then rest[j + 1] else null;
    SpliceDone(stmt, sub, rest);
    assert Cell(stmt.nop, stmt.data) == a[0];
    assert forall i :: 0 <= i < |sub| ==> Cell(sub[i].nop, sub[i].data) == a[i];
    assert forall i :: 0 <= i < |rest| ==> Cell(rest[i].nop, rest[i].data) == b[i];
    SpliceContents(stmt, sub, rest, a, b);
  }
}
