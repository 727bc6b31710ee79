/** The process-wide network-height cache (networkInfoCache.ts): two cells,
    the latest network info and the block it names, refreshed under a guard
    that refuses a strictly lower height. */
module NetworkInfoCache {
  import opened Wrappers

  datatype NetworkInfo = NetworkInfo(height: int, current: string)
  datatype BlockData = BlockData(indepHash: string, timestamp: int)

  /** What `getCachedNetworkData()` returns: both cells, each possibly null. */
  datatype Snapshot = Snapshot(networkInfo: Option<NetworkInfo>, blockInfo: Option<BlockData>)

  /** What the network answers during one refresh: the result of
      `arweaveWrapper.info()` (which may resolve to nothing) and, for any block
      id, the result of `arweave.blocks.get`. */
  datatype Fetched = Fetched(info: Result<Option<NetworkInfo>>, blocks: string -> Result<BlockData>)

  predicate HasNewerOrEqual(s: Snapshot, n: NetworkInfo) {
    s.networkInfo.None? || n.height >= s.networkInfo.value.height
  }

  /** Both cells are populated, which ends the start-up loop. */
  predicate Complete(s: Snapshot) {
    s.networkInfo.Some? && s.blockInfo.Some?
  }

  /** The effect of one `updateNetworkInfo` call on the two cells. The network
      info cell is written before the block is fetched, so a failed block fetch
      leaves the new info beside the old block. Every failure is swallowed. */
  function Refresh(s: Snapshot, f: Fetched): (t: Snapshot)
    // a failed info fetch changes nothing
    ensures f.info.Err? ==> t == s
    // a strictly lower height is refused: both cells keep their values
    ensures f.info.Ok? && f.info.value.Some? && !HasNewerOrEqual(s, f.info.value.value) ==> t == s
    // with nothing cached, or a height at least the cached one, the info is taken
    // and the block is the one fetched for its `current` id, if that fetch succeeded
    ensures f.info.Ok? && f.info.value.Some? && HasNewerOrEqual(s, f.info.value.value) ==>
      t.networkInfo == f.info.value &&
      t.blockInfo == (var b := f.blocks(f.info.value.value.current); if b.Ok? then Some(b.value) else s.blockInfo)
    // an info that resolves to nothing clears the info cell and keeps the block cell
    ensures f.info == Ok(None) ==> t == Snapshot(None, s.blockInfo)
  {
    match f.info
    case Err(_) => s
    case Ok(None) => Snapshot(None, s.blockInfo)
    case Ok(Some(n)) =>
      if s.networkInfo.Some? && n.height < s.networkInfo.value.height then s
      else
        match f.blocks(n.current)
        case Ok(b) => Snapshot(Some(n), Some(b))
        case Err(_) => Snapshot(Some(n), s.blockInfo)
  }

  /** The cells after a sequence of refreshes, oldest first. */
  function RefreshAll(s: Snapshot, fs: seq<Fetched>): Snapshot
    decreases |fs|
  {
    if fs == [] then s else Refresh(RefreshAll(s, fs[..|fs| - 1]), fs[|fs| - 1])
  }

  /** No answer in `fs` resolves the network info to nothing. */
  predicate NeverEmpty(fs: seq<Fetched>) {
    forall i :: 0 <= i < |fs| ==> fs[i].info != Ok(None)
  }

  /** Across any sequence of refreshes whose info calls never resolve to
      nothing, once a height is cached the cached height never decreases. */
  lemma {:induction false} HeightNeverDecreases(s: Snapshot, fs: seq<Fetched>)
    requires s.networkInfo.Some?
    requires NeverEmpty(fs)
    ensures RefreshAll(s, fs).networkInfo.Some?
    ensures RefreshAll(s, fs).networkInfo.value.height >= s.networkInfo.value.height
  {
    if fs != [] {
      var init := fs[..|fs| - 1];
      assert NeverEmpty(init) by {
        forall i | 0 <= i < |init| ensures init[i].info != Ok(None) {
          assert init[i] == fs[i];
        }
      }
      HeightNeverDecreases(s, init);
      assert fs[|fs| - 1].info != Ok(None);
    }
  }

  /** The two module-level cells and their getter. */
  class Cache {
    var cachedNetworkInfo: Option<NetworkInfo>
    var cachedBlockInfo: Option<BlockData>

    /** Both cells start out null. */
    constructor ()
      ensures cachedNetworkInfo.None? && cachedBlockInfo.None?
    {
      cachedNetworkInfo := None;
      cachedBlockInfo := None;
    }

    function GetCachedNetworkData(): Snapshot
      reads this
    {
      Snapshot(cachedNetworkInfo, cachedBlockInfo)
    }

    /** `updateNetworkInfo`: one guarded refresh; never raises. */
    method UpdateNetworkInfo(f: Fetched)
      modifies this
      ensures GetCachedNetworkData() == Refresh(old(GetCachedNetworkData()), f)
    {
      if f.info.Err? {
        return;  // the fetch threw: logged and swallowed
      }
      var newNetworkInfo := f.info.value;
      if cachedNetworkInfo.Some? && newNetworkInfo.Some? && newNetworkInfo.value.height < cachedNetworkInfo.value.height {
        return;  // lower height: warned and skipped
      }
      cachedNetworkInfo := newNetworkInfo;
      if cachedNetworkInfo.None? {
        return;  // reading `current` of null throws: logged and swallowed
      }
      var block := f.blocks(cachedNetworkInfo.value.current);
      if block.Ok? {
        cachedBlockInfo := Some(block.value);
      }
    }

    /** One tick of the network-info task. While either cell is null it keeps
        refreshing, consuming one answer of `fetches` per attempt, until both
        are set (or the answers run out); otherwise it refreshes once. Returns
        how many answers were used. */
    method RunTick(fetches: seq<Fetched>) returns (used: nat)
      modifies this
      ensures used <= |fetches|
      ensures GetCachedNetworkData() == RefreshAll(old(GetCachedNetworkData()), fetches[..used])
      ensures Complete(old(GetCachedNetworkData())) ==> used == if fetches == [] then 0 else 1
      ensures !Complete(old(GetCachedNetworkData())) ==>
        (Complete(GetCachedNetworkData()) || used == |fetches|) &&
        forall k :: 0 <= k < used ==> !Complete(RefreshAll(old(GetCachedNetworkData()), fetches[..k]))
    {
      ghost var s0 := GetCachedNetworkData();
      assert fetches[..0] == [];
      if cachedNetworkInfo.None? || cachedBlockInfo.None? {
        used := 0;
        while (cachedNetworkInfo.None? || cachedBlockInfo.None?) && used < |fetches|
          invariant used <= |fetches|
          invariant GetCachedNetworkData() == RefreshAll(s0, fetches[..used])
          invariant forall k :: 0 <= k < used ==> !Complete(RefreshAll(s0, fetches[..k]))
        {
          assert fetches[..used + 1][..used] == fetches[..used];
          UpdateNetworkInfo(fetches[used]);
          used := used + 1;
        }
      } else if fetches == [] {
        used := 0;
      } else {
        assert fetches[..1][..0] == [];
        UpdateNetworkInfo(fetches[0]);
        used := 1;
      }
    }
  }
}
