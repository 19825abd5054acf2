/**
The caching allocator for device memory: released blocks are kept and handed out again when a
request fits them closely.
 */
module Allocator {

  type Pointer = nat

  const NULL: Pointer := 0

  /** Blocks by pointer, with their sizes in bytes. */
  type Blocks = map<Pointer, nat>

  // ----- sums -------------------------------------------------------------------------------

  ghost function Total(m: Blocks): nat {
    if m == map[] then 0
    else
      var p :| p in m;
      m[p] + Total(m - {p})
  }

  lemma {:induction false} TotalRemoves(m: Blocks, p: Pointer)
    requires p in m
    ensures Total(m) == m[p] + Total(m - {p})
    decreases |m|
  {
    var q :| q in m && Total(m) == m[q] + Total(m - {q});
    if p != q {
      TotalRemoves(m - {q}, p);
      TotalRemoves(m - {p}, q);
      assert m - {q} - {p} == m - {p} - {q};
    }
  }

  lemma TotalAdds(m: Blocks, p: Pointer, bytes: nat)
    requires p !in m
    ensures Total(m[p := bytes]) == Total(m) + bytes
  {
    TotalRemoves(m[p := bytes], p);
    assert m[p := bytes] - {p} == m;
  }

  // ----- accounting -------------------------------------------------------------------------

  /** Every block on the device is either free or handed out, with its size, and counted. */
  ghost predicate Accounted(free: Blocks, used: Blocks, device: Blocks, total: nat) {
    && free.Keys !! used.Keys && device == free + used && NULL !in device
    && total == Total(free) + Total(used)
  }

  lemma TakeFree(free: Blocks, used: Blocks, device: Blocks, total: nat, p: Pointer)
    requires Accounted(free, used, device, total) && p in free
    ensures p !in used && Accounted(free - {p}, used[p := free[p]], device, total)
  {
    TotalRemoves(free, p);
    TotalAdds(used, p, free[p]);
    assert (free - {p}) + used[p := free[p]] == device;
  }

  lemma TakeCreated(free: Blocks, used: Blocks, device: Blocks, total: nat, p: Pointer, bytes: nat)
    requires Accounted(free, used, device, total) && p !in device && p != NULL
    ensures Accounted(free, used[p := bytes], device[p := bytes], total + bytes)
  {
    TotalAdds(used, p, bytes);
    assert free + used[p := bytes] == device[p := bytes];
  }

  lemma Evict(free: Blocks, used: Blocks, device: Blocks, total: nat, p: Pointer)
    requires Accounted(free, used, device, total) && p in free
    ensures p in device && total >= free[p] && Accounted(free - {p}, used, device - {p}, total - free[p])
  {
    TotalRemoves(free, p);
    assert (free - {p}) + used == device - {p};
  }

  lemma Release(free: Blocks, used: Blocks, device: Blocks, total: nat, p: Pointer)
    requires Accounted(free, used, device, total) && p in used
    ensures p !in free && Accounted(free[p := used[p]], used - {p}, device, total)
  {
    TotalRemoves(used, p);
    TotalAdds(free, p, used[p]);
    assert free[p := used[p]] + (used - {p}) == device;
  }

  /** A cached block fits a request closely. */
  ghost predicate Fits(size: nat, bytes: nat, slack: nat) {
    bytes <= size <= bytes + slack
  }

  ghost predicate SomeFit(free: Blocks, bytes: nat, slack: nat) {
    exists p :: p in free && Fits(free[p], bytes, slack)
  }

  /** `after` is `before` without some of its largest blocks, not one more than the limit demands. */
  ghost predicate Trimming(before: Blocks, after: Blocks, total: nat, limit: nat) {
    && after.Keys <= before.Keys && (forall p :: p in after ==> after[p] == before[p])
    && (after == before || exists p :: p in before && p !in after && total + before[p] > limit)
    && forall p, q :: p in after && q in before && q !in after ==> before[p] <= before[q]
  }

  ghost predicate Trimmed(before: Blocks, after: Blocks, total: nat, limit: nat) {
    Trimming(before, after, total, limit) && (total <= limit || after == map[])
  }

  lemma TrimLargest(before: Blocks, after: Blocks, total: nat, limit: nat, last: Pointer)
    requires Trimming(before, after, total, limit) && last in after && after[last] <= total && total > limit
    requires forall p :: p in after ==> after[p] <= after[last]
    ensures Trimming(before, after - {last}, total - after[last], limit)
  {
    var rest := after - {last};
    assert last in before && last !in rest && total - after[last] + before[last] > limit;
    forall p, q | p in rest && q in before && q !in rest ensures before[p] <= before[q] {
      if q != last {
        assert q !in after;
      }
    }
  }

  class CachedAllocator {
    var numBytesTotal: nat
    var maxCachedBytes: nat
    const cacheRelTol: real
    var freeBlocks: Blocks
    var allocatedBlocks: Blocks
    /** the blocks that exist on the device */
    ghost var device: Blocks

    ghost predicate Valid()
      reads this
    {
      cacheRelTol >= 0.0 && Accounted(freeBlocks, allocatedBlocks, device, numBytesTotal)
    }

    constructor (maxCachedBytes: nat, cacheRelTol: real)
      requires cacheRelTol >= 0.0
      ensures Valid() && freeBlocks == map[] && allocatedBlocks == map[] && device == map[]
      ensures this.maxCachedBytes == maxCachedBytes && this.cacheRelTol == cacheRelTol
    {
      this.numBytesTotal, this.maxCachedBytes, this.cacheRelTol := 0, maxCachedBytes, cacheRelTol;
      freeBlocks, allocatedBlocks, device := map[], map[], map[];
    }

    method SetMaxCachedBytes(bytes: nat)
      requires Valid()
      modifies `maxCachedBytes
      ensures Valid() && maxCachedBytes == bytes
    {
      maxCachedBytes := bytes;
    }

    /** How much larger than the request a cached block may be. */
    function Slack(bytes: nat): nat
      requires cacheRelTol >= 0.0
    {
      assert bytes as real * cacheRelTol >= 0.0;
      (bytes as real * cacheRelTol).Floor
    }

    /** A block fits if it is large enough and exceeds the request by at most the relative tolerance. */
    lemma FitIsRelative(size: nat, bytes: nat)
      requires cacheRelTol >= 0.0
      ensures Fits(size, bytes, Slack(bytes)) <==> bytes <= size && (size - bytes) as real <= bytes as real * cacheRelTol
    {
    }

    /** The smallest free block that is large enough. */
    method LowerBound(bytes: nat) returns (found: bool, best: Pointer)
      ensures found <==> exists p :: p in freeBlocks && freeBlocks[p] >= bytes
      ensures found ==> best in freeBlocks && freeBlocks[best] >= bytes
      ensures found ==> forall p :: p in freeBlocks && freeBlocks[p] >= bytes ==> freeBlocks[best] <= freeBlocks[p]
    {
      found, best := false, NULL;
      var left := freeBlocks.Keys;
      while left != {}
        invariant left <= freeBlocks.Keys
        invariant found ==> best in freeBlocks && freeBlocks[best] >= bytes
        invariant forall p :: p in freeBlocks && p !in left && freeBlocks[p] >= bytes ==> found && freeBlocks[best] <= freeBlocks[p]
        decreases left
      {
        var p :| p in left;
        if freeBlocks[p] >= bytes && (!found || freeBlocks[p] < freeBlocks[best]) {
          found, best := true, p;
        }
        left := left - {p};
      }
    }

    /** The largest free block. */
    method Largest() returns (best: Pointer)
      requires freeBlocks != map[]
      ensures best in freeBlocks && forall p :: p in freeBlocks ==> freeBlocks[p] <= freeBlocks[best]
    {
      best :| best in freeBlocks;
      var left := freeBlocks.Keys;
      while left != {}
        invariant left <= freeBlocks.Keys && best in freeBlocks
        invariant forall p :: p in freeBlocks && p !in left ==> freeBlocks[p] <= freeBlocks[best]
        decreases left
      {
        var p :| p in left;
        if freeBlocks[p] > freeBlocks[best] {
          best := p;
        }
        left := left - {p};
      }
    }

    /**
    Hand out a block: the smallest free block that fits closely, or a new one from the device. `created`
    is the pointer the device returns if asked.
     */
    method GetTemporaryBuffer(bytes: nat, created: Pointer) returns (result: Pointer)
      requires Valid() && created != NULL && created !in device
      modifies this
      ensures Valid() && maxCachedBytes == old(maxCachedBytes)
      ensures bytes == 0 ==> result == NULL && allocatedBlocks == old(allocatedBlocks) && freeBlocks == old(freeBlocks)
      ensures bytes > 0 ==>
        result !in old(allocatedBlocks) && result in allocatedBlocks
        && allocatedBlocks == old(allocatedBlocks)[result := allocatedBlocks[result]]
      ensures bytes > 0 && SomeFit(old(freeBlocks), bytes, Slack(bytes)) ==>
        && result in old(freeBlocks) && allocatedBlocks[result] == old(freeBlocks)[result]
        && Fits(allocatedBlocks[result], bytes, Slack(bytes)) && freeBlocks == old(freeBlocks) - {result}
        && (forall p :: p in old(freeBlocks) && old(freeBlocks)[p] >= bytes ==> allocatedBlocks[result] <= old(freeBlocks)[p])
        && device == old(device)
      ensures bytes > 0 && !SomeFit(old(freeBlocks), bytes, Slack(bytes)) ==>
        && result == created && allocatedBlocks[result] == bytes
        && Trimmed(old(freeBlocks), freeBlocks, numBytesTotal, maxCachedBytes)
    {
      if bytes == 0 {
        return NULL;
      }
      var found, best := LowerBound(bytes);
      if found && freeBlocks[best] <= bytes + Slack(bytes) {
        result := best;
        assert Fits(freeBlocks[best], bytes, Slack(bytes));
        TakeFree(freeBlocks, allocatedBlocks, device, numBytesTotal, best);
        allocatedBlocks := allocatedBlocks[result := freeBlocks[best]];
        freeBlocks := freeBlocks - {best};
      } else {
        result := created;
        TakeCreated(freeBlocks, allocatedBlocks, device, numBytesTotal, created, bytes);
        device := device[created := bytes];
        numBytesTotal := numBytesTotal + bytes;
        allocatedBlocks := allocatedBlocks[result := bytes];
        Shrink();
      }
    }

    /** Return the largest cached blocks to the device while the limit is exceeded. */
    method Shrink()
      requires Valid()
      modifies `freeBlocks, `numBytesTotal, `device
      ensures Valid() && Trimmed(old(freeBlocks), freeBlocks, numBytesTotal, maxCachedBytes)
    {
      while numBytesTotal > maxCachedBytes && freeBlocks != map[]
        invariant Valid() && Trimming(old(freeBlocks), freeBlocks, numBytesTotal, maxCachedBytes)
        decreases |freeBlocks|
      {
        DropLargest(old(freeBlocks));
      }
    }

    method DropLargest(ghost before: Blocks)
      requires Valid() && numBytesTotal > maxCachedBytes && freeBlocks != map[]
      requires Trimming(before, freeBlocks, numBytesTotal, maxCachedBytes)
      modifies `freeBlocks, `numBytesTotal, `device
      ensures Valid() && Trimming(before, freeBlocks, numBytesTotal, maxCachedBytes) && |freeBlocks| < |old(freeBlocks)|
    {
      var last := Largest();
      Evict(freeBlocks, allocatedBlocks, device, numBytesTotal, last);
      TrimLargest(before, freeBlocks, numBytesTotal, maxCachedBytes, last);
      FreeOnDevice(last);
      numBytesTotal := numBytesTotal - freeBlocks[last];
      freeBlocks := freeBlocks - {last};
    }

    /** Free a block on the device, where it must still exist. */
    ghost method FreeOnDevice(p: Pointer)
      requires p in device
      modifies `device
      ensures device == old(device) - {p}
    {
      device := device - {p};
    }

    /** Take a block back. */
    method Deallocate(p: Pointer)
      requires Valid() && (p == NULL || p in allocatedBlocks)
      modifies `freeBlocks, `allocatedBlocks
      ensures Valid()
      ensures p == NULL ==> freeBlocks == old(freeBlocks) && allocatedBlocks == old(allocatedBlocks)
      ensures p != NULL ==>
        allocatedBlocks == old(allocatedBlocks) - {p} && freeBlocks == old(freeBlocks)[p := old(allocatedBlocks)[p]]
    {
      if p == NULL {
        return;
      }
      Release(freeBlocks, allocatedBlocks, device, numBytesTotal, p);
      var bytes := allocatedBlocks[p];
      allocatedBlocks := allocatedBlocks - {p};
      freeBlocks := freeBlocks[p := bytes];
    }

    /** On destruction every block that still exists is freed, each once. */
    method FreeAll()
      requires Valid()
      modifies `device
      ensures device == map[]
    {
      var left := freeBlocks.Keys;
      while left != {}
        invariant left <= freeBlocks.Keys && device.Keys == left + allocatedBlocks.Keys
        decreases left
      {
        var p :| p in left;
        FreeOnDevice(p);
        left := left - {p};
      }
      left := allocatedBlocks.Keys;
      while left != {}
        invariant device.Keys == left
        decreases left
      {
        var p :| p in left;
        FreeOnDevice(p);
        left := left - {p};
      }
    }
  }
}
