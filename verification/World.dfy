/** Minecraft as a block store: a finite map from block positions to the bytes kept there. */
module World {

  datatype Pos = Pos(x: int, y: int, z: int)
  datatype BlockWrite = BlockWrite(pos: Pos, data: string)

  type Blocks = map<Pos, string>

  /** What ReadBlock returns: "" stands for Go's nil, an air block. */
  function Get(w: Blocks, p: Pos): string {
    if p in w then w[p] else ""
  }

  /** What WriteBlock leaves: writing no bytes turns the block to air. */
  function Put(w: Blocks, p: Pos, data: string): Blocks {
    if data == "" then w - {p} else w[p := data]
  }

  function PutAll(w: Blocks, writes: seq<BlockWrite>): Blocks
    decreases |writes|
  {
    var n := |writes|;
    if n == 0 then w else Put(PutAll(w, writes[..n - 1]), writes[n - 1].pos, writes[n - 1].data)
  }

  lemma {:induction false} PutAllAppend(w: Blocks, writes: seq<BlockWrite>, one: BlockWrite)
    ensures PutAll(w, writes + [one]) == Put(PutAll(w, writes), one.pos, one.data)
  {
    assert (writes + [one])[..|writes|] == writes;
  }

  lemma {:induction false} PutTwo(w: Blocks, writes: seq<BlockWrite>)
    requires |writes| == 2
    ensures PutAll(w, writes) == Put(Put(w, writes[0].pos, writes[0].data), writes[1].pos, writes[1].data)
  {
    assert writes[..1][..0] == [] && writes[..1][0] == writes[0];
    assert PutAll(w, writes[..1]) == Put(w, writes[0].pos, writes[0].data);
  }

  /** The writes of one strip: block x of the strip goes to X = x. */
  function StripWrites(strip: seq<string>, y: int, z: int): (writes: seq<BlockWrite>) {
    seq(|strip|, x requires 0 <= x < |strip| => BlockWrite(Pos(x, y, z), strip[x]))
  }

  function ReadStrip(w: Blocks, width: nat, y: int, z: int): (data: seq<string>)
    ensures |data| == width
  {
    seq(width, x => Get(w, Pos(x, y, z)))
  }

  /** A batch of strip writes changes exactly the strip's blocks, to the strip's data. */
  lemma {:induction false} PutStrip(w: Blocks, strip: seq<string>, y: int, z: int)
    ensures forall p :: Get(PutAll(w, StripWrites(strip, y, z)), p)
                        == if p.y == y && p.z == z && 0 <= p.x < |strip| then strip[p.x] else Get(w, p)
  {
    if strip != [] {
      var n := |strip| - 1;
      var init := StripWrites(strip[..n], y, z);
      var last := BlockWrite(Pos(n, y, z), strip[n]);
      assert StripWrites(strip, y, z) == init + [last];
      PutStrip(w, strip[..n], y, z);
      PutAllAppend(w, init, last);
    }
  }

  /** internal/hal/mock: the store, one method per HAL request. `trace` records the world after
      every request that writes, so it lists the worlds a crash can leave behind. */
  class Hal {
    var store: Blocks
    ghost var trace: seq<Blocks>

    constructor ()
      ensures store == map[] && trace == []
    {
      store := map[];
      trace := [];
    }

    method ReadBlock(p: Pos) returns (data: string)
      ensures data == Get(store, p)
    {
      if p in store {
        data := store[p];
      } else {
        data := "";
      }
    }

    method WriteBlock(p: Pos, data: string)
      modifies this
      ensures store == Put(old(store), p, data)
      ensures trace == old(trace) + [store]
    {
      if data == "" {
        store := store - {p};
      } else {
        store := store[p := data];
      }
      trace := trace + [store];
    }

    method BatchRead(positions: seq<Pos>) returns (results: seq<string>)
      ensures |results| == |positions|
      ensures forall i | 0 <= i < |positions| :: results[i] == Get(store, positions[i])
    {
      results := [];
      for i := 0 to |positions|
        invariant |results| == i
        invariant forall k | 0 <= k < i :: results[k] == Get(store, positions[k])
      {
        var data := "";
        if positions[i] in store {
          data := store[positions[i]];
        }
        results := results + [data];
      }
    }

    method BatchWrite(writes: seq<BlockWrite>)
      modifies this
      ensures store == PutAll(old(store), writes)
      ensures trace == old(trace) + [store]
    {
      var current := store;
      for i := 0 to |writes|
        invariant current == PutAll(old(store), writes[..i])
        invariant store == old(store) && trace == old(trace)
      {
        assert writes[..i + 1][..i] == writes[..i];
        var one := writes[i];
        if one.data == "" {
          current := current - {one.pos};
        } else {
          current := current[one.pos := one.data];
        }
      }
      assert writes[..|writes|] == writes;
      store := current;
      trace := trace + [store];
    }
  }
}
