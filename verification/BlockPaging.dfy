/** Paging blocks together with their resolved inputs, from one snapshot of the chain database. */
module BlockPaging {
  import opened Wrappers
  import opened Bytes
  import opened Ledger
  import opened OrderedTable
  import opened ChainDb
  import opened ChainRuns

  datatype BlockRef = BlockRef(slot: U64, hash: Bytes)
  datatype BlockWithContext = BlockWithContext(block: Block, resolver: Resolver)
  datatype Page = Page(items: seq<BlockWithContext>, next: Option<BlockRef>)
  datatype PageError = InvalidArgument | NotFound | LengthMismatch | HashMismatch

  function RefOf(b: Block): BlockRef {
    BlockRef(b.slot, b.hash)
  }

  predicate Paired(blocks: seq<Entry<Block>>, resolvers: seq<Entry<BlockResolver>>)
    requires |blocks| == |resolvers|
  {
    forall i :: 0 <= i < |blocks| ==> blocks[i].value.hash == resolvers[i].value.hash
  }

  function Zip(blocks: seq<Entry<Block>>, resolvers: seq<Entry<BlockResolver>>): (r: seq<BlockWithContext>)
    requires |blocks| == |resolvers|
    ensures |r| == |blocks|
  {
    seq(|blocks|, i requires 0 <= i < |blocks| => BlockWithContext(blocks[i].value, resolvers[i].value.resolver))
  }

  method ZipPage(blocks: seq<Entry<Block>>, resolvers: seq<Entry<BlockResolver>>) returns (page: Option<seq<BlockWithContext>>)
    requires |blocks| == |resolvers|
    ensures page == if Paired(blocks, resolvers) then Some(Zip(blocks, resolvers)) else None
  {
    var items := [];
    for i := 0 to |blocks|
      invariant |items| == i
      invariant forall j :: 0 <= j < i ==> blocks[j].value.hash == resolvers[j].value.hash
      invariant forall j :: 0 <= j < i ==> items[j] == Zip(blocks, resolvers)[j]
    {
      if blocks[i].value.hash != resolvers[i].value.hash {
        return None;
      }
      items := items + [BlockWithContext(blocks[i].value, resolvers[i].value.resolver)];
    }
    assert items == Zip(blocks, resolvers);
    page := Some(items);
  }

  /** The entries after the cursor, or an error if the cursor is not an entry. */
  function After(s: Tables, cursor: Option<BlockRef>): Result<seq<Entry<Block>>, PageError> {
    match cursor
    case None => Success(From(s.blocks, 0))
    case Some(c) =>
      var found := From(s.blocks, c.slot);
      if found == [] || found[0].key != c.slot || found[0].value.hash != c.hash then Failure(NotFound)
      else Success(found[1..])
  }

  function ResolversAfter(s: Tables, cursor: Option<BlockRef>): seq<Entry<BlockResolver>> {
    match cursor
    case None => From(s.resolvers, 0)
    case Some(c) => var found := From(s.resolvers, c.slot); if found == [] then [] else found[1..]
  }

  function PageBlocks(s: Tables, cursor: Option<BlockRef>, maxItems: int): Result<Page, PageError> {
    if maxItems < 1 then Failure(InvalidArgument)
    else
      var later :- After(s, cursor);
      var blocks := Take(later, maxItems);
      var next := if |later| > maxItems then Some(RefOf(blocks[maxItems - 1].value)) else None;
      var resolvers := Take(ResolversAfter(s, cursor), maxItems);
      if |blocks| != |resolvers| then Failure(LengthMismatch)
      else if !Paired(blocks, resolvers) then Failure(HashMismatch)
      else Success(Page(Zip(blocks, resolvers), next))
  }

  method PageBlocksWithContext(db: ChainDb, cursor: Option<BlockRef>, maxItems: int) returns (r: Result<Page, PageError>)
    ensures r == PageBlocks(db.View(), cursor, maxItems)
  {
    hide Paired, Zip, From;
    if maxItems < 1 {
      return Failure(InvalidArgument);
    }
    var later := From(db.blocks, if cursor.Some? then cursor.value.slot else 0);
    if cursor.Some? {
      if later == [] || later[0].key != cursor.value.slot || later[0].value.hash != cursor.value.hash {
        return Failure(NotFound);
      }
      later := later[1..];
    }
    var blocks := Take(later, maxItems + 1);
    var next := None;
    if |blocks| == maxItems + 1 {
      blocks := blocks[..maxItems];
      next := Some(RefOf(blocks[maxItems - 1].value));
    }
    assert blocks == Take(later, maxItems);
    var resolvers := From(db.resolvers, if cursor.Some? then cursor.value.slot else 0);
    if cursor.Some? && resolvers != [] {
      resolvers := resolvers[1..];
    }
    resolvers := Take(resolvers, maxItems);
    if |blocks| != |resolvers| {
      return Failure(LengthMismatch);
    }
    var page := ZipPage(blocks, resolvers);
    r := if page.None? then Failure(HashMismatch) else Success(Page(page.value, next));
  }

  // ---- On a reachable snapshot ----

  /** The cursor from which the chain continues at index `i`. */
  function CursorAt(chain: seq<Block>, i: nat): Option<BlockRef>
    requires i <= |chain|
  {
    if i == 0 then None else Some(RefOf(chain[i - 1]))
  }

  function Blocks(items: seq<BlockWithContext>): (r: seq<Block>)
    ensures |r| == |items|
  {
    seq(|items|, i requires 0 <= i < |items| => items[i].block)
  }

  /** Stretches of the two tables pair up. */
  lemma ZipPairs(genesis: Genesis, chain: seq<Block>, i: nat, j: nat)
    requires ValidChain(genesis, chain) && i <= j <= |chain|
    requires |ResolverTable(genesis, chain)| == |chain|
    ensures Paired(BlockTable(chain)[i..j], ResolverTable(genesis, chain)[i..j])
    ensures Blocks(Zip(BlockTable(chain)[i..j], ResolverTable(genesis, chain)[i..j])) == chain[i..j]
  {
    TablesPair(genesis, chain);
    hide ResolverTable, ValidChain;
    var bs, rs := BlockTable(chain)[i..j], ResolverTable(genesis, chain)[i..j];
    forall k | 0 <= k < j - i ensures bs[k].value == chain[i..j][k] && bs[k].value.hash == rs[k].value.hash {
      assert bs[k] == BlockTable(chain)[i + k] && rs[k] == ResolverTable(genesis, chain)[i + k];
    }
  }

  /** The item is block `n` of the chain, with its inputs resolved in the ledger just before it. */
  ghost predicate Carries(genesis: Genesis, chain: seq<Block>, n: nat, item: BlockWithContext)
    requires n < |chain|
  {
    var before := Unspent(genesis, chain[..n]);
    item.block == chain[n] && Resolvable(before, chain[n]) && item.resolver == Resolve(before, chain[n])
  }

  lemma {:induction false} TableCarries(genesis: Genesis, chain: seq<Block>, n: nat)
    requires ValidChain(genesis, chain) && n < |chain|
    ensures n < |ResolverTable(genesis, chain)|
    ensures Carries(genesis, chain, n, BlockWithContext(chain[n], ResolverTable(genesis, chain)[n].value.resolver))
    decreases |chain|
  {
    hide Unspent, Resolve;
    TablesPair(genesis, chain);
    var last := |chain| - 1;
    TablesPair(genesis, chain[..last]);
    if n < last {
      TableCarries(genesis, chain[..last], n);
      assert chain[..last][..n] == chain[..n];
    }
  }

  lemma ZipCarries(genesis: Genesis, chain: seq<Block>, i: nat, j: nat, k: nat)
    requires ValidChain(genesis, chain) && i <= j <= |chain| && k < j - i
    requires |ResolverTable(genesis, chain)| == |chain|
    ensures Carries(genesis, chain, i + k, Zip(BlockTable(chain)[i..j], ResolverTable(genesis, chain)[i..j])[k])
  {
    TableCarries(genesis, chain, i + k);
    hide Carries, ResolverTable, ValidChain;
    var bs, rs := BlockTable(chain)[i..j], ResolverTable(genesis, chain)[i..j];
    assert bs[k] == BlockTable(chain)[i + k] && rs[k] == ResolverTable(genesis, chain)[i + k];
    assert Zip(bs, rs)[k] == BlockWithContext(chain[i + k], ResolverTable(genesis, chain)[i + k].value.resolver);
  }

  lemma ContinuesAt(s: Tables, genesis: Genesis, chain: seq<Block>, i: nat)
    requires Invariant(s, genesis, chain) && i <= |chain|
    ensures After(s, CursorAt(chain, i)) == Success(BlockTable(chain)[i..])
    ensures |s.resolvers| == |chain| && ResolversAfter(s, CursorAt(chain, i)) == s.resolvers[i..]
  {
    BlockTableSorted(genesis, chain);
    TablesPair(genesis, chain);
    ResolversSorted(genesis, chain);
    hide ValidChain, ResolverTable, Unspent, From;
    if i > 0 {
      FromAt(s.blocks, i - 1);
      FromAt(s.resolvers, i - 1);
      assert s.blocks[i - 1..][1..] == s.blocks[i..];
      assert s.resolvers[i - 1..][1..] == s.resolvers[i..];
    } else {
      FromZero(s.blocks);
      FromZero(s.resolvers);
    }
  }

  lemma FromZero<V>(t: seq<Entry<V>>)
    ensures From(t, 0) == t == t[0..]
  {
  }

  lemma ResolversSorted(genesis: Genesis, chain: seq<Block>)
    requires ValidChain(genesis, chain)
    ensures Sorted(ResolverTable(genesis, chain))
  {
    TablesPair(genesis, chain);
    forall i, j | 0 <= i < j < |chain| ensures chain[i].slot < chain[j].slot {
      SlotsIncrease(genesis, chain, i, j);
    }
  }

  function End(chain: seq<Block>, i: nat, maxItems: nat): nat {
    if i + maxItems < |chain| then i + maxItems else |chain|
  }

  lemma TakeStretch<T>(t: seq<T>, i: nat, j: nat, maxItems: nat)
    requires i <= |t| && j == if i + maxItems < |t| then i + maxItems else |t|
    ensures Take(t[i..], maxItems) == t[i..j]
  {
  }

  /** A page from a point of the chain is the next stretch of it; both mismatch errors are unreachable. */
  lemma PageIsStretch(s: Tables, genesis: Genesis, chain: seq<Block>, i: nat, maxItems: nat)
    requires Invariant(s, genesis, chain) && i <= |chain| && maxItems >= 1
    ensures var r := PageBlocks(s, CursorAt(chain, i), maxItems);
            var j := End(chain, i, maxItems);
            && r.Success? && Blocks(r.value.items) == chain[i..j]
            && (forall k :: 0 <= k < j - i ==> Carries(genesis, chain, i + k, r.value.items[k]))
            && r.value.next == if j < |chain| then CursorAt(chain, j) else None
  {
    hide Invariant, ValidChain, ResolverTable, Zip, Paired, After, ResolversAfter, Blocks, Take, PageBlocks;
    var j := End(chain, i, maxItems);
    var bs, rs := BlockTable(chain), s.resolvers;
    ContinuesAt(s, genesis, chain, i);
    ResolversOf(s, genesis, chain);
    ZipPairs(genesis, chain, i, j);
    TakeStretch(bs, i, j, maxItems);
    TakeStretch(rs, i, j, maxItems);
    assert j < |chain| ==> bs[i..j][maxItems - 1].value == chain[j - 1];
    forall k | 0 <= k < j - i ensures Carries(genesis, chain, i + k, Zip(bs[i..j], rs[i..j])[k]) {
      ZipCarries(genesis, chain, i, j, k);
    }
    hide *;
    PageUnfolds(s, CursorAt(chain, i), maxItems, bs[i..], bs[i..j], rs[i..j]);
    EndIs(chain, i, maxItems);
  }

  lemma EndIs(chain: seq<Block>, i: nat, maxItems: nat)
    requires i <= |chain|
    ensures End(chain, i, maxItems) == if i + maxItems < |chain| then i + maxItems else |chain|
    ensures forall j :: 0 < j <= |chain| ==> CursorAt(chain, j) == Some(RefOf(chain[j - 1]))
  {
  }

  lemma PageUnfolds(s: Tables, cursor: Option<BlockRef>, maxItems: nat,
                    later: seq<Entry<Block>>, bs: seq<Entry<Block>>, rs: seq<Entry<BlockResolver>>)
    requires maxItems >= 1 && After(s, cursor) == Success(later)
    requires bs == Take(later, maxItems) && rs == Take(ResolversAfter(s, cursor), maxItems)
    requires |bs| == |rs| && Paired(bs, rs)
    ensures PageBlocks(s, cursor, maxItems) ==
            Success(Page(Zip(bs, rs), if |later| > maxItems then Some(RefOf(bs[maxItems - 1].value)) else None))
  {
    hide After, ResolversAfter, Paired, Zip;
  }

  lemma ResolversOf(s: Tables, genesis: Genesis, chain: seq<Block>)
    requires Invariant(s, genesis, chain)
    ensures ValidChain(genesis, chain) && s.resolvers == ResolverTable(genesis, chain)
  {
  }

  /** All blocks that up to `pages` requests return, and whether the last one had no next cursor. */
  function Follow(s: Tables, cursor: Option<BlockRef>, maxItems: nat, pages: nat): Result<(seq<Block>, bool), PageError>
    decreases pages
  {
    if pages == 0 then Success(([], false))
    else
      var page :- PageBlocks(s, cursor, maxItems);
      if page.next.None? then Success((Blocks(page.items), true))
      else
        var rest :- Follow(s, page.next, maxItems, pages - 1);
        Success((Blocks(page.items) + rest.0, rest.1))
  }

  /** Following the cursor from any point lists the rest of the chain once, in slot order, and ends. */
  lemma {:induction false} FollowListsChain(s: Tables, genesis: Genesis, chain: seq<Block>, i: nat, maxItems: nat, pages: nat)
    requires Invariant(s, genesis, chain) && i <= |chain| && maxItems >= 1 && pages > |chain| - i
    ensures Follow(s, CursorAt(chain, i), maxItems, pages) == Success((chain[i..], true))
    decreases |chain| - i
  {
    hide Invariant, PageBlocks, Blocks;
    var j := End(chain, i, maxItems);
    PageIsStretch(s, genesis, chain, i, maxItems);
    if j < |chain| {
      FollowListsChain(s, genesis, chain, j, maxItems, pages - 1);
      assert chain[i..j] + chain[j..] == chain[i..];
    } else {
      assert chain[i..j] == chain[i..];
    }
  }

  /** A cursor that names no block of the chain is answered with not-found. */
  lemma UnknownCursor(s: Tables, genesis: Genesis, chain: seq<Block>, c: BlockRef, maxItems: nat)
    requires Invariant(s, genesis, chain) && maxItems >= 1
    ensures PageBlocks(s, Some(c), maxItems) == Failure(NotFound) <==> forall i :: !OnChain(chain, i, c.slot, c.hash)
  {
    hide ValidChain, ResolverTable, Unspent, Take, Paired, Zip;
    var found := From(s.blocks, c.slot);
    FromIsSuffix(s.blocks, c.slot);
    if found != [] {
      var n := |chain| - |found|;
      assert found[0] == s.blocks[n] == BlockTable(chain)[n];
      assert found[0].key == c.slot && found[0].value.hash == c.hash ==> OnChain(chain, n, c.slot, c.hash);
    }
    hide From;
    if i: nat :| OnChain(chain, i, c.slot, c.hash) {
      PageIsStretch(s, genesis, chain, i + 1, maxItems);
    }
  }
}
