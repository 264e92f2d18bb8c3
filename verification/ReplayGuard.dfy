/** The replay guard as it runs: 300 Bloom slices of 12,500 bytes each, updated in place, proved
    to behave as the ring of ReplayWindow. */
module ReplayGuard {
  import opened Options
  import opened NonceCodec
  import opened ReplayWindow

  const BYTES := 12500

  function Mask(bit: nat): bv8
    requires bit < 8
  {
    if bit == 0 then 1 else if bit == 1 then 2 else if bit == 2 then 4 else if bit == 3 then 8
    else if bit == 4 then 16 else if bit == 5 then 32 else if bit == 6 then 64 else 128
  }

  lemma SetBit(x: bv8, b: nat, c: nat)
    requires b < 8 && c < 8
    ensures Mask(b) == 1 << b
    ensures (x | Mask(b)) & Mask(c) != 0 <==> b == c || x & Mask(c) != 0
  {
    assert b == 0 || b == 1 || b == 2 || b == 3 || b == 4 || b == 5 || b == 6 || b == 7;
    assert c == 0 || c == 1 || c == 2 || c == 3 || c == 4 || c == 5 || c == 6 || c == 7;
  }

  predicate BitSet(bits: seq<bv8>, p: nat)
    requires p / 8 < |bits|
  {
    bits[p / 8] & Mask(p % 8) != 0
  }

  /** The positions whose bit is set. */
  function SetPositions(bits: seq<bv8>): set<nat>
    requires |bits| == BYTES
  {
    set p | 0 <= p < M && BitSet(bits, p)
  }

  lemma Blank(bits: seq<bv8>)
    requires |bits| == BYTES && forall i :: 0 <= i < BYTES ==> bits[i] == 0
    ensures SetPositions(bits) == {}
  {
  }

  lemma OneMore(bits: seq<bv8>, bits': seq<bv8>, p: nat)
    requires |bits| == BYTES && p < M
    requires bits' == bits[p / 8 := bits[p / 8] | Mask(p % 8)]
    ensures SetPositions(bits') == SetPositions(bits) + {p}
  {
    forall q | 0 <= q < M ensures BitSet(bits', q) <==> q == p || BitSet(bits, q) {
      if q / 8 == p / 8 {
        SetBit(bits[p / 8], p % 8, q % 8);
      }
    }
  }

  class BloomSlice {
    var bits: array<bv8>
    const hash: Hash

    ghost predicate Valid()
      reads this
    {
      bits.Length == BYTES
    }

    ghost function View(): set<nat>
      requires Valid()
      reads this, bits
    {
      SetPositions(bits[..])
    }

    constructor (hash: Hash)
      ensures Valid() && fresh(bits) && View() == {} && this.hash == hash
    {
      this.hash := hash;
      bits := new bv8[BYTES](_ => 0);
      new;
      Blank(bits[..]);
    }

    method Add(nonce: string)
      requires Valid()
      modifies bits
      ensures Valid() && View() == old(View()) + Marks(hash, nonce)
    {
      var positions := Positions(hash, nonce);
      var i := 0;
      while i < K
        invariant i <= K && Valid()
        invariant View() == old(View()) + (set p | p in positions[..i])
      {
        var pos := positions[i];
        ghost var before := bits[..];
        bits[pos / 8] := bits[pos / 8] | Mask(pos % 8);
        OneMore(before, bits[..], pos);
        assert positions[..i + 1] == positions[..i] + [pos];
        i := i + 1;
      }
      assert positions[..K] == positions;
    }

    method Contains(nonce: string) returns (found: bool)
      requires Valid()
      ensures found <==> Marks(hash, nonce) <= View()
    {
      var positions := Positions(hash, nonce);
      var i := 0;
      while i < K
        invariant i <= K
        invariant forall j :: 0 <= j < i ==> positions[j] in View()
      {
        var pos := positions[i];
        if bits[pos / 8] & Mask(pos % 8) == 0 {
          assert pos in Marks(hash, nonce) && !BitSet(bits[..], pos);
          return false;
        }
        assert BitSet(bits[..], pos);
        i := i + 1;
      }
      assert forall p :: p in Marks(hash, nonce) ==> p in View();
      return true;
    }

    method Clear()
      modifies this
      ensures Valid() && fresh(bits) && View() == {}
    {
      bits := new bv8[BYTES](_ => 0);
      Blank(bits[..]);
    }
  }

  class Guard {
    const hash: Hash
    const slices: seq<BloomSlice>
    var sliceTs: seq<nat>
    var lastCleanup: nat
    ghost var ring: Ring
    ghost var Repr: set<object>

    /** Every slice has its own buffer, and the slots are the timestamps beside their contents. */
    ghost predicate Valid()
      reads this, Repr
    {
      && this in Repr
      && |slices| == WINDOW && |sliceTs| == WINDOW
      && (forall i :: 0 <= i < WINDOW ==>
            && slices[i] in Repr && slices[i].bits in Repr
            && slices[i].Valid() && slices[i].hash == hash)
      && (forall i, j :: 0 <= i < j < WINDOW ==> slices[i] != slices[j] && slices[i].bits != slices[j].bits)
      && Shaped(ring) && ring.lastCleanup == lastCleanup
      && (forall i :: 0 <= i < WINDOW ==> ring.slots[i] == Slot(sliceTs[i], slices[i].View()))
    }

    constructor (hash: Hash, now: nat)
      ensures Valid() && fresh(Repr) && ring == Fresh(now) && this.hash == hash
    {
      this.hash := hash;
      var made: seq<BloomSlice> := [];
      ghost var all: set<object> := {};
      while |made| < WINDOW
        invariant |made| <= WINDOW && fresh(all)
        invariant forall i :: 0 <= i < |made| ==>
          && made[i] in all && made[i].bits in all
          && made[i].Valid() && made[i].hash == hash && made[i].View() == {}
        invariant forall i, j :: 0 <= i < j < |made| ==> made[i] != made[j] && made[i].bits != made[j].bits
      {
        var s := new BloomSlice(hash);
        made := made + [s];
        all := all + {s, s.bits};
      }
      slices := made;
      sliceTs := seq(WINDOW, _ => 0);
      lastCleanup := now;
      ring := Fresh(now);
      Repr := all + {this};
    }

    /** Empties one slice and gives its slot a new second. */
    method Restart(i: nat, ts: nat)
      requires Valid() && i < WINDOW
      modifies this`sliceTs, this`ring, this`Repr, slices[i]
      ensures Valid() && fresh(Repr - old(Repr))
      ensures ring == old(ring).(slots := old(ring).slots[i := Slot(ts, {})])
    {
      slices[i].Clear();
      sliceTs := sliceTs[i := ts];
      ring := ring.(slots := ring.slots[i := Slot(ts, {})]);
      Repr := Repr + {slices[i].bits};
    }

    method CurrentSlot(now: nat) returns (slot: nat)
      requires Valid()
      modifies Repr
      ensures Valid() && fresh(Repr - old(Repr))
      ensures slot == now % WINDOW
      ensures ring == if old(ring).slots[slot].ts == now then old(ring)
                      else old(ring).(slots := old(ring).slots[slot := Slot(now, {})])
    {
      slot := now % WINDOW;
      if sliceTs[slot] != now {
        Restart(slot, now);
      }
    }

    method CleanupExpired(now: nat)
      requires Valid()
      modifies Repr
      ensures Valid() && fresh(Repr - old(Repr))
      ensures ring == Cleaned(old(ring), now)
    {
      if now == lastCleanup {
        return;
      }
      ghost var before := ring;
      lastCleanup := now;
      ring := ring.(lastCleanup := now);
      var i := 0;
      while i < WINDOW
        invariant i <= WINDOW && Valid() && fresh(Repr - old(Repr))
        invariant ring.lastCleanup == now
        invariant forall j :: 0 <= j < WINDOW ==>
          ring.slots[j] == if j < i then Cleaned(before, now).slots[j] else before.slots[j]
      {
        if sliceTs[i] != 0 && sliceTs[i] < now - WINDOW {
          Restart(i, 0);
        }
        i := i + 1;
      }
      assert ring.slots == Cleaned(before, now).slots;
    }

    method IsReplay(nonce: string, clock: Readings) returns (replay: bool)
      requires Valid()
      modifies Repr
      ensures Valid() && fresh(Repr - old(Repr))
      ensures replay <==> !Accepts(old(ring), hash, nonce, clock)
      ensures ring == if nonce == "" || !TimestampOk(nonce, clock.validate) then old(ring)
                      else Cleaned(old(ring), clock.cleanup / 1000)
    {
      if nonce == "" || !TimestampOk(nonce, clock.validate) {
        return true;
      }
      CleanupExpired(clock.cleanup / 1000);
      var now := clock.scan / 1000;
      var i := 0;
      while i < WINDOW
        modifies {}
        invariant i <= WINDOW
        invariant forall j :: 0 <= j < i ==> !SlotHit(ring.slots[j], hash, nonce, now)
      {
        var ts := sliceTs[i];
        if ts != 0 && now - ts <= WINDOW {
          var found := slices[i].Contains(nonce);
          if found {
            assert SlotHit(ring.slots[i], hash, nonce, now);
            return true;
          }
        }
        i := i + 1;
      }
      return false;
    }

    method Record(nonce: string, now: nat)
      requires Valid()
      modifies Repr
      ensures Valid() && fresh(Repr - old(Repr))
      ensures ring == if nonce == "" then old(ring) else Recorded(old(ring), hash, nonce, now)
    {
      if nonce == "" {
        return;
      }
      var slot := CurrentSlot(now);
      slices[slot].Add(nonce);
      ring := ring.(slots := ring.slots[slot := Slot(now, ring.slots[slot].marks + Marks(hash, nonce))]);
    }

    /** One call does to the object what Checked does to the ring it represents. */
    method CheckAndRecord(nonce: string, clock: Readings) returns (ok: bool)
      requires Valid()
      modifies Repr
      ensures Valid() && fresh(Repr - old(Repr))
      ensures ok <==> Accepts(old(ring), hash, nonce, clock)
      ensures ring == Checked(old(ring), hash, nonce, clock)
    {
      var replay := IsReplay(nonce, clock);
      if replay {
        return false;
      }
      Record(nonce, clock.record / 1000);
      return true;
    }
  }
}
