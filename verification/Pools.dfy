/** The region allocator of amqp_mem.c. */
module Pools {
  import opened Basics
  import opened Bytes

  /// The allocator on page numbers and offsets

  // The current page is number nextPage - 1, and there is none when nextPage is 0.
  datatype PoolState = PoolState(pageSize: nat, pageCount: nat, largeCount: nat, nextPage: nat, used: nat)

  datatype Place = Nowhere | InPage(page: nat, offset: nat) | InLarge(block: nat)

  predicate Sound(p: PoolState) {
    p.pageSize > 0 && p.nextPage <= p.pageCount && p.used <= p.pageSize
  }

  function Round8(amount: nat): nat {
    (amount + 7) / 8 * 8
  }

  function Init(pageSize: nat): PoolState {
    PoolState(if pageSize == 0 then 4096 else pageSize, 0, 0, 0, 0)
  }

  function Recycled(p: PoolState): PoolState {
    p.(largeCount := 0, nextPage := 0, used := 0)
  }

  function AllocStep(p: PoolState, amount: nat): (PoolState, Place) {
    var size := Round8(amount);
    if amount == 0 then (p, Nowhere)
    else if size > p.pageSize then (p.(largeCount := p.largeCount + 1), InLarge(p.largeCount))
    else if p.nextPage > 0 && p.used + size <= p.pageSize then
      (p.(used := p.used + size), InPage(p.nextPage - 1, p.used))
    else
      var q := if p.nextPage >= p.pageCount then p.(pageCount := p.pageCount + 1) else p;
      (q.(nextPage := p.nextPage + 1, used := size), InPage(p.nextPage, 0))
  }

  function Allocs(p: PoolState, amounts: seq<nat>): (r: (PoolState, seq<Place>))
    ensures |r.1| == |amounts|
  {
    if amounts == [] then (p, [])
    else
      var (q, places) := Allocs(p, amounts[..|amounts| - 1]);
      var (q', place) := AllocStep(q, amounts[|amounts| - 1]);
      (q', places + [place])
  }

  // The rounded block lies inside the pages handed out so far and starts on an 8-octet boundary.
  predicate Inside(p: PoolState, place: Place, amount: nat) {
    match place
    case Nowhere => amount == 0
    case InPage(page, offset) =>
      page < p.nextPage && offset % 8 == 0 &&
      amount <= Round8(amount) <= (if page == p.nextPage - 1 then p.used else p.pageSize) - offset
    case InLarge(block) => block < p.largeCount && Round8(amount) > p.pageSize
  }

  predicate Separate(a: Place, n: nat, b: Place, m: nat) {
    match (a, b)
    case (InPage(page, offset), InPage(page', offset')) =>
      page != page' || offset + Round8(n) <= offset' || offset' + Round8(m) <= offset
    case (InLarge(block), InLarge(block')) => block != block'
    case _ => true
  }

  lemma StepInside(p: PoolState, amount: nat)
    requires Sound(p) && p.used % 8 == 0
    ensures var (q, place) := AllocStep(p, amount);
            && Sound(q) && q.used % 8 == 0 && q.pageSize == p.pageSize && Inside(q, place, amount)
            && (forall a, n :: Inside(p, a, n) ==> Inside(q, a, n) && Separate(a, n, place, amount))
  {
    hide Round8;
    Rounded(amount);
    Aligned(p.used, Round8(amount));
  }

  lemma Rounded(amount: nat)
    ensures amount <= Round8(amount) < amount + 8 && Round8(amount) % 8 == 0
  {
  }

  lemma Aligned(a: nat, b: nat)
    requires a % 8 == 0 && b % 8 == 0
    ensures (a + b) % 8 == 0
  {
  }

  // Every block handed out since the last recycling is inside its page or a block of its own, aligned,
  // and shares no octet with another one, for any page size and any requests.
  lemma {:induction false} BlocksAreSeparate(p: PoolState, amounts: seq<nat>)
    requires Sound(p) && p == Recycled(p)
    ensures var (q, places) := Allocs(p, amounts);
            && Sound(q) && q.used % 8 == 0 && q.pageSize == p.pageSize
            && (forall i :: 0 <= i < |amounts| ==> Inside(q, places[i], amounts[i]))
            && (forall i, j :: 0 <= i < j < |amounts| ==> Separate(places[i], amounts[i], places[j], amounts[j]))
  {
    hide Inside, Separate, AllocStep;
    if amounts != [] {
      var init := amounts[..|amounts| - 1];
      BlocksAreSeparate(p, init);
      StepInside(Allocs(p, init).0, amounts[|amounts| - 1]);
    }
  }

  // The block ends here in its page.
  predicate EndsAt(place: Place, amount: nat, page: nat, end: nat) {
    place.InPage? && place.page == page && place.offset + Round8(amount) == end
  }

  // Some block before number n ends here.
  ghost predicate Reached(places: seq<Place>, amounts: seq<nat>, n: nat, page: nat, end: nat) {
    exists i :: 0 <= i < n && i < |places| && i < |amounts| && EndsAt(places[i], amounts[i], page, end)
  }

  lemma {:induction false} LastEnds(p: PoolState, amounts: seq<nat>)
    requires Sound(p) && p == Recycled(p)
    ensures var (q, places) := Allocs(p, amounts);
            q.pageSize == p.pageSize && (q.nextPage > 0 ==> Reached(places, amounts, |amounts|, q.nextPage - 1, q.used))
  {
    hide Round8, Reached, AllocStep;
    if amounts != [] {
      var init, amount := amounts[..|amounts| - 1], amounts[|amounts| - 1];
      LastEnds(p, init);
      var q, before := Allocs(p, init).0, Allocs(p, init).1;
      EndIs(q, before, amounts);
    }
  }

  lemma EndIs(q: PoolState, before: seq<Place>, amounts: seq<nat>)
    requires amounts != [] && |before| == |amounts| - 1
    requires q.nextPage > 0 ==> Reached(before, amounts[..|amounts| - 1], |amounts| - 1, q.nextPage - 1, q.used)
    ensures var (q', place) := AllocStep(q, amounts[|amounts| - 1]);
            && q'.pageSize == q.pageSize
            && (q'.nextPage > 0 ==> Reached(before + [place], amounts, |amounts|, q'.nextPage - 1, q'.used))
  {
    hide Round8, EndsAt;
    var n, init := |amounts| - 1, amounts[..|amounts| - 1];
    var (q', place) := AllocStep(q, amounts[n]);
    assert (before + [place])[n] == place;
    if place.InPage? {
      PlaceEnds(q, amounts[n]);
    } else if q.nextPage > 0 {
      var i :| 0 <= i < |init| && EndsAt(before[i], init[i], q.nextPage - 1, q.used);
      assert (before + [place])[i] == before[i] && amounts[i] == init[i];
    }
  }

  lemma PlaceEnds(p: PoolState, amount: nat)
    ensures var (q, place) := AllocStep(p, amount); place.InPage? ==> q.nextPage > 0 && EndsAt(place, amount, q.nextPage - 1, q.used)
  {
  }

  // Some block before number n ends in this page, and so many more octets do not fit behind it.
  ghost predicate NoRoom(places: seq<Place>, amounts: seq<nat>, n: nat, page: nat, size: nat, pageSize: nat) {
    exists i :: 0 <= i < n && i < |places| && i < |amounts| && Crowded(places[i], amounts[i], page, size, pageSize)
  }

  predicate Crowded(place: Place, amount: nat, page: nat, size: nat, pageSize: nat) {
    place.InPage? && place.page == page && place.offset + Round8(amount) + size > pageSize
  }

  lemma PlaceIs(p: PoolState, amount: nat)
    requires Sound(p)
    ensures var place, size := AllocStep(p, amount).1, Round8(amount);
            && (place.Nowhere? <==> amount == 0)
            && (place.InLarge? <==> amount > 0 && size > p.pageSize)
            && (place.InPage? && place.offset > 0 ==> p.nextPage > 0 && place == InPage(p.nextPage - 1, p.used))
            && (place.InPage? && place.offset == 0 && place.page > 0 ==>
                  p.nextPage > 0 && ((place.page == p.nextPage - 1 && p.used == 0) || (place.page == p.nextPage && p.used + size > p.pageSize)))
  {
  }

  lemma NotAtStart(p: PoolState, amounts: seq<nat>)
    requires Sound(p) && p == Recycled(p)
    ensures var q := Allocs(p, amounts).0; Sound(q) && q.pageSize == p.pageSize && (q.nextPage > 0 ==> q.used > 0)
  {
    if amounts != [] {
      NotAtStart(p, amounts[..|amounts| - 1]);
    }
  }

  lemma CrowdedEnd(place: Place, amount: nat, page: nat, end: nat, size: nat, pageSize: nat)
    requires EndsAt(place, amount, page, end) && end + size > pageSize
    ensures Crowded(place, amount, page, size, pageSize)
  {
  }

  // No room is wasted: a block of its own is for what does not fit a page, a block in a page starts where the one before
  // it ended, and another page is begun only for a request that the rest of the page could not hold.
  lemma PagesAreFilled(p: PoolState, amounts: seq<nat>)
    requires Sound(p) && p == Recycled(p) && amounts != []
    ensures var n, places := |amounts| - 1, Allocs(p, amounts).1;
            var place, size := places[n], Round8(amounts[n]);
            && (place.Nowhere? <==> amounts[n] == 0)
            && (place.InLarge? <==> amounts[n] > 0 && size > p.pageSize)
            && (place.InPage? && place.offset > 0 ==> Reached(places, amounts, n, place.page, place.offset))
            && (place.InPage? && place.offset == 0 && place.page > 0 ==>
                  NoRoom(places, amounts, n, place.page - 1, size, p.pageSize))
  {
    hide *;
    var init, amount := amounts[..|amounts| - 1], amounts[|amounts| - 1];
    LastEnds(p, init);
    NotAtStart(p, init);
    LastPlace(p, amounts);
    var q, places := Allocs(p, init).0, Allocs(p, amounts).1;
    PlaceIs(q, amount);
    if q.nextPage > 0 {
      ReachedStill(Allocs(p, init).1, places, amounts, q.nextPage - 1, q.used);
      ReachedCrowds(places, amounts, |init|, q.nextPage - 1, q.used, Round8(amount), p.pageSize);
    }
  }

  lemma LastPlace(p: PoolState, amounts: seq<nat>)
    requires amounts != []
    ensures var q, before := Allocs(p, amounts[..|amounts| - 1]).0, Allocs(p, amounts[..|amounts| - 1]).1;
            var places := Allocs(p, amounts).1;
            && |before| == |amounts| - 1 && |places| == |amounts| && before <= places
            && places[|amounts| - 1] == AllocStep(q, amounts[|amounts| - 1]).1
  {
    hide AllocStep;
  }

  lemma ReachedStill(before: seq<Place>, places: seq<Place>, amounts: seq<nat>, page: nat, end: nat)
    requires amounts != [] && before <= places && |before| == |amounts| - 1
    requires Reached(before, amounts[..|amounts| - 1], |amounts| - 1, page, end)
    ensures Reached(places, amounts, |amounts| - 1, page, end)
  {
    hide EndsAt;
    var init := amounts[..|amounts| - 1];
    var i :| 0 <= i < |init| && EndsAt(before[i], init[i], page, end);
    assert places[i] == before[i] && amounts[i] == init[i];
  }

  lemma ReachedCrowds(places: seq<Place>, amounts: seq<nat>, n: nat, page: nat, end: nat, size: nat, pageSize: nat)
    requires Reached(places, amounts, n, page, end)
    ensures end + size > pageSize ==> NoRoom(places, amounts, n, page, size, pageSize)
  {
    hide EndsAt, Crowded;
    var i :| 0 <= i < n && i < |places| && i < |amounts| && EndsAt(places[i], amounts[i], page, end);
    if end + size > pageSize { CrowdedEnd(places[i], amounts[i], page, end, size, pageSize); }
  }

  /// Recycling keeps the pages

  // The pages that the requests fill when they start on no page at all.
  function Demand(pageSize: nat, amounts: seq<nat>): nat {
    Allocs(Init(pageSize), amounts).0.nextPage
  }

  function Max(a: nat, b: nat): nat {
    if a < b then b else a
  }

  // The addresses do not depend on the pages that are already there, which are used first.
  lemma {:induction false} SameAddresses(p: PoolState, amounts: seq<nat>)
    requires Sound(p) && p == Recycled(p)
    ensures var (q, places) := Allocs(p, amounts);
            var (q0, places0) := Allocs(Init(p.pageSize), amounts);
            && places == places0
            && q == q0.(pageCount := Max(p.pageCount, q0.nextPage)) && q0.pageCount == q0.nextPage
  {
    if amounts != [] {
      SameAddresses(p, amounts[..|amounts| - 1]);
    }
  }

  // The same requests after a recycling get the same addresses and no new page.
  lemma ReplayAfterRecycle(p: PoolState, amounts: seq<nat>)
    requires Sound(p) && p == Recycled(p)
    ensures var q := Allocs(p, amounts).0;
            && Allocs(Recycled(q), amounts).1 == Allocs(p, amounts).1
            && Allocs(Recycled(q), amounts).0.pageCount == q.pageCount
  {
    hide Allocs;
    BlocksAreSeparate(p, amounts);
    SameAddresses(p, amounts);
    SameAddresses(Recycled(Allocs(p, amounts).0), amounts);
  }

  function Epochs(p: PoolState, epochs: seq<seq<nat>>): PoolState {
    if epochs == [] then p
    else Recycled(Allocs(Epochs(p, epochs[..|epochs| - 1]), epochs[|epochs| - 1]).0)
  }

  function MaxDemand(pageSize: nat, epochs: seq<seq<nat>>): nat {
    if epochs == [] then 0
    else Max(MaxDemand(pageSize, epochs[..|epochs| - 1]), Demand(pageSize, epochs[|epochs| - 1]))
  }

  // Over any number of recyclings the pool owns as many pages as its most demanding period needed.
  lemma {:induction false} PagesAreMaxDemand(pageSize: nat, epochs: seq<seq<nat>>)
    requires pageSize > 0
    ensures var q := Epochs(Init(pageSize), epochs);
            Sound(q) && q == Recycled(q) && q.pageSize == pageSize && q.pageCount == MaxDemand(pageSize, epochs)
  {
    hide Allocs;
    if epochs != [] {
      var init := epochs[..|epochs| - 1];
      PagesAreMaxDemand(pageSize, init);
      var q := Epochs(Init(pageSize), init);
      SameAddresses(q, epochs[|epochs| - 1]);
      BlocksAreSeparate(q, epochs[|epochs| - 1]);
    }
  }

  /// The allocator on memory

  datatype Region = Region(block: array<byte>, start: nat, len: nat)

  ghost predicate Apart(a: Region, b: Region) {
    a.block != b.block || a.start + a.len <= b.start || b.start + b.len <= a.start
  }

  class Pool {
    const pageSize: nat
    var pages: seq<array<byte>>
    var largeBlocks: seq<array<byte>>
    var nextPage: nat
    var allocBlock: array?<byte>
    var allocUsed: nat
    // All memory of the pool.
    ghost var blocks: set<array<byte>>
    // The blocks handed out since the pool was last recycled, in order, and where they are.
    ghost var live: seq<Region>
    ghost var places: seq<Place>

    function Abs(): PoolState
      reads this
    {
      PoolState(pageSize, |pages|, |largeBlocks|, nextPage, allocUsed)
    }

    // The memory that a place of the specification stands for.
    ghost predicate IsAt(r: Region, place: Place)
      reads `pages, `largeBlocks
    {
      r.start + r.len <= r.block.Length &&
      match place
      case Nowhere => false
      case InPage(page, offset) => page < |pages| && r.block == pages[page] && r.start == offset
      case InLarge(block) => block < |largeBlocks| && r.block == largeBlocks[block]
    }

    ghost predicate DistinctBlocks()
      reads `pages, `largeBlocks, `blocks
    {
      && (forall i :: 0 <= i < |pages| ==> pages[i] in blocks)
      && (forall i :: 0 <= i < |largeBlocks| ==> largeBlocks[i] in blocks)
      && (forall i, j :: 0 <= i < j < |pages| ==> pages[i] != pages[j])
      && (forall i, j :: 0 <= i < j < |largeBlocks| ==> largeBlocks[i] != largeBlocks[j])
      && (forall i, j :: 0 <= i < |pages| && 0 <= j < |largeBlocks| ==> pages[i] != largeBlocks[j])
    }

    ghost predicate BlocksValid()
      reads `pages, `largeBlocks, `blocks, `nextPage, `allocBlock
    {
      && (forall i :: 0 <= i < |pages| ==> pages[i].Length == pageSize)
      && DistinctBlocks()
      && nextPage <= |pages| && allocBlock == (if nextPage == 0 then null else pages[nextPage - 1])
    }

    ghost predicate Valid()
      reads this
    {
      && Sound(Abs()) && allocUsed % 8 == 0 && BlocksValid()
      && |places| == |live|
      && (forall k :: 0 <= k < |live| ==> IsAt(live[k], places[k]) && Inside(Abs(), places[k], live[k].len))
      && (forall k, l :: 0 <= k < l < |live| ==> Separate(places[k], live[k].len, places[l], live[l].len))
    }

    // Two live blocks share no octet.
    lemma LiveApart(k: nat, l: nat)
      requires Valid() && k < l < |live|
      ensures Apart(live[k], live[l])
    {
      assert Separate(places[k], live[k].len, places[l], live[l].len);
      assert IsAt(live[k], places[k]) && Inside(Abs(), places[k], live[k].len);
      assert IsAt(live[l], places[l]) && Inside(Abs(), places[l], live[l].len);
    }

    /** init_amqp_pool. */
    constructor (size: nat)
      ensures Valid() && Abs() == Init(size) && live == [] && blocks == {}
      ensures size > 0 ==> pageSize == size
    {
      pageSize := if size == 0 then 4096 else size;
      pages, largeBlocks, nextPage, allocBlock, allocUsed := [], [], 0, null, 0;
      live, places, blocks := [], [], {};
    }

    /** recycle_amqp_pool. */
    method Recycle()
      requires Valid()
      modifies this
      ensures Valid() && Abs() == Recycled(old(Abs())) && live == [] && blocks == old(blocks)
    {
      largeBlocks, nextPage, allocBlock, allocUsed := [], 0, null, 0;
      live, places := [], [];
    }

    // calloc and record_pool_block for a block of its own.
    method NewLarge(size: nat) returns (block: array<byte>)
      requires BlocksValid()
      modifies `largeBlocks, `blocks
      ensures blocks == old(blocks) + {block}
      ensures BlocksValid() && fresh(block) && block.Length == size && largeBlocks == old(largeBlocks) + [block]
    {
      block := new byte[size](_ => 0);
      largeBlocks, blocks := largeBlocks + [block], blocks + {block};
    }

    // The next page: a recorded one, or a new one when all are in use.
    method NextPage()
      requires BlocksValid()
      modifies `pages, `blocks, `nextPage, `allocBlock
      ensures old(blocks) <= blocks && forall b :: b in blocks ==> b in old(blocks) || fresh(b)
      ensures BlocksValid() && nextPage == old(nextPage) + 1
      ensures old(nextPage) < |old(pages)| ==> pages == old(pages)
      ensures old(nextPage) >= |old(pages)| ==>
                |pages| == |old(pages)| + 1 && pages[..|old(pages)|] == old(pages) && fresh(pages[|old(pages)|])
    {
      if nextPage >= |pages| {
        var page := new byte[pageSize](_ => 0);
        pages, blocks := pages + [page], blocks + {page};
        allocBlock, nextPage := page, |pages|;
      } else {
        allocBlock, nextPage := pages[nextPage], nextPage + 1;
      }
    }

    // amqp_pool_alloc without the books: the memory at the place that the specification names.
    method Carve(amount: nat) returns (r: Region)
      requires Sound(Abs()) && allocUsed % 8 == 0 && BlocksValid() && amount > 0
      modifies `pages, `largeBlocks, `nextPage, `allocBlock, `allocUsed, `blocks
      ensures BlocksValid() && Abs() == AllocStep(old(Abs()), amount).0
      ensures r.len == amount && IsAt(r, AllocStep(old(Abs()), amount).1)
      ensures old(pages) <= pages && old(largeBlocks) <= largeBlocks
      ensures old(blocks) <= blocks && forall b :: b in blocks ==> b in old(blocks) || fresh(b)
      ensures r.block in blocks && r.start + r.len <= r.block.Length
    {
      hide BlocksValid;
      var size := Round8(amount);
      if size > pageSize {
        var block := NewLarge(size);
        r := Region(block, 0, amount);
      } else {
        BlocksAre();
        if allocBlock != null && allocUsed + size <= pageSize {
          r := Region(allocBlock, allocUsed, amount);
          allocUsed := allocUsed + size;
        } else {
          NextPage();
          BlocksAre();
          allocUsed := size;
          r := Region(allocBlock, 0, amount);
        }
      }
    }

    /** amqp_pool_alloc. */
    method Alloc(amount: nat) returns (r: Option<Region>)
      requires Valid()
      modifies this
      ensures Valid() && Abs() == AllocStep(old(Abs()), amount).0
      ensures r.None? <==> amount == 0
      ensures r.None? ==> live == old(live)
      ensures r.Some? ==> live == old(live) + [r.value] && r.value.len == amount
      ensures r.Some? ==> places == old(places) + [AllocStep(old(Abs()), amount).1]
      ensures old(blocks) <= blocks && forall b :: b in blocks ==> b in old(blocks) || fresh(b)
      ensures r.Some? ==> r.value.block in blocks && r.value.start + r.value.len <= r.value.block.Length
    {
      hide Inside, Separate, BlocksValid;
      StepInside(Abs(), amount);
      if amount == 0 {
        return None;
      }
      ghost var place := AllocStep(Abs(), amount).1;
      var region := Carve(amount);
      live, places := live + [region], places + [place];
      r := Some(region);
    }

    lemma BlocksAre()
      requires BlocksValid()
      ensures nextPage <= |pages| && (allocBlock == null <==> nextPage == 0)
      ensures allocBlock != null ==> allocBlock == pages[nextPage - 1] && allocBlock in blocks && allocBlock.Length == pageSize
    {
    }
  }
}
