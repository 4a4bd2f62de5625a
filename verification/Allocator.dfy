/** Channel allocation in arc/arc_udma.c: the table of channel objects, and reserving and
    releasing its slots. */
module Allocator {
  import opened Bits

  type i32 = x: int | -0x8000_0000 <= x < 0x8000_0000

  const CHN_ANY := -1
  const CHN_INVALID := -2
  const IDLE := 0
  const REQ_SOFT := 0

  /** DMA_CHANNEL_T, without its priority. Address 0 is NULL. */
  class Channel {
    var channel: i32
    var source: u32
    var desc: u32
    var status: int
    var callback: u32
    var intEnable: nat
  }

  // ------------------------------------------------------------------ slots

  ghost predicate Injective(s: seq<Channel?>) {
    forall i, j | 0 <= i < j < |s| && s[i] != null :: s[i] != s[j]
  }

  ghost function FreeSlots(s: seq<Channel?>): nat {
    if s == [] then 0 else FreeSlots(s[..|s| - 1]) + if s[|s| - 1] == null then 1 else 0
  }

  ghost function BoundIn(s: seq<Channel?>): set<Channel?> {
    set c | c in s && c != null
  }

  /** In a partial injection, free slots and bound channels make up the table. */
  lemma {:induction false} FreePlusBound(s: seq<Channel?>)
    requires Injective(s)
    ensures FreeSlots(s) + |BoundIn(s)| == |s|
  {
    if s == [] {
      assert BoundIn(s) == {};
    } else {
      var front, c := s[..|s| - 1], s[|s| - 1];
      FreePlusBound(front);
      assert s == front + [c];
      if c == null {
        assert BoundIn(s) == BoundIn(front);
      } else {
        assert c !in front;
        assert BoundIn(s) == BoundIn(front) + {c};
      }
    }
  }

  ghost predicate LowestFree(s: seq<Channel?>, i: int) {
    0 <= i < |s| && s[i] == null && forall j | 0 <= j < i :: s[j] != null
  }

  /** A slot can be had exactly while fewer channels are bound than there are slots. */
  lemma FullIff(s: seq<Channel?>)
    requires Injective(s)
    ensures (forall j | 0 <= j < |s| :: s[j] != null) <==> |BoundIn(s)| == |s|
  {
    FreePlusBound(s);
    NoFreeIff(s);
  }

  lemma {:induction false} NoFreeIff(s: seq<Channel?>)
    ensures FreeSlots(s) == 0 <==> forall j | 0 <= j < |s| :: s[j] != null
  {
    if s != [] {
      NoFreeIff(s[..|s| - 1]);
      assert forall j | 0 <= j < |s| - 1 :: s[j] == s[..|s| - 1][j];
    }
  }

  // ------------------------------------------------------------------ interrupt flags

  predicate Bit(w: nat, i: nat) {
    Shr(w, i) % 2 == 1
  }

  /** The flagged channels below `n`, in the order the scan takes them. */
  function Flagged(w: nat, n: nat): seq<nat> {
    if n == 0 then [] else Flagged(w, n - 1) + if Bit(w, n - 1) then [n - 1] else []
  }

  /** The flags whose slot has a callback. */
  function Having(flags: seq<nat>, has: seq<bool>): seq<nat> {
    if flags == [] then [] else
      var i := flags[|flags| - 1];
      Having(flags[..|flags| - 1], has) + if i < |has| && has[i] then [i] else []
  }

  lemma NoneHaving(has: seq<bool>)
    ensures Having([], has) == []
  {}

  lemma HavingOneMore(flags: seq<nat>, i: nat, has: seq<bool>)
    ensures Having(flags + [i], has) == Having(flags, has) + if i < |has| && has[i] then [i] else []
  {
    assert (flags + [i])[..|flags|] == flags;
  }

  lemma NoFlags(w: nat)
    ensures Flagged(w, 0) == []
  {}

  /** One slot of the scan: what it adds to the acknowledged channels and to the callbacks. */
  lemma OneMoreSlot(w: nat, n: nat, has: seq<bool>, acks: seq<nat>, calls: seq<nat>)
    requires n < |has|
    ensures var flags, flags' := Flagged(w, n), Flagged(w, n + 1);
      if Bit(w, n) then
        && acks + flags' == (acks + flags) + [n]
        && calls + Having(flags', has) == (calls + Having(flags, has)) + if has[n] then [n] else []
      else flags' == flags
  {
    OneMoreFlag(w, n);
    HavingOneMore(Flagged(w, n), n, has);
    hide Flagged, Having;
  }

  /** The status of a channel once the first `n` slots have been scanned. */
  function Scanned(w: nat, n: nat, outcome: int, channel: i32, status: int): int {
    if 0 <= channel < n && Bit(w, channel) then outcome else status
  }

  lemma NoneScanned(w: nat, outcome: int)
    ensures forall channel: i32, status: int :: Scanned(w, 0, outcome, channel, status) == status
  {}

  lemma OneMoreScanned(w: nat, n: nat, n': nat, outcome: int)
    requires n' == n + 1
    ensures forall channel: i32, status: int :: Scanned(w, n', outcome, channel, status) ==
                if channel == n && Bit(w, n) then outcome else Scanned(w, n, outcome, channel, status)
  {}

  lemma BitIs(w: nat, n: nat)
    ensures Bit(w, n) <==> Shr(w, n) % 2 == 1
  {}

  lemma OneMoreFlag(w: nat, n: nat)
    ensures Flagged(w, n + 1) == Flagged(w, n) + if Shr(w, n) % 2 == 1 then [n] else []
  {}

  /** Each flagged channel once, ascending, and no other. */
  lemma {:induction false} FlaggedExactly(w: nat, n: nat)
    ensures forall i: nat :: i in Flagged(w, n) <==> i < n && Bit(w, i)
    ensures forall i, j | 0 <= i < j < |Flagged(w, n)| :: Flagged(w, n)[i] < Flagged(w, n)[j]
  {
    if n > 0 {
      FlaggedExactly(w, n - 1);
      var front := Flagged(w, n - 1);
      assert forall i | 0 <= i < |front| :: front[i] in front;
      hide Bit;
    }
  }

  lemma ShiftZero(w: nat)
    ensures Shr(w, 0) == w
  {}

  // ------------------------------------------------------------------ the driver

  datatype Op =
    | Init(c: Channel?) | Config(c: Channel?, desc: u32)
    | Reserve(channel: i32, c: Channel?, source: u32) | Release(c: Channel?)

  class Dmac {
    const table: array<Channel?>
    /** The channel objects that clients have initialised or reserved. */
    ghost var clients: set<Channel>
    /** Channels acknowledged and disabled by interrupt handlers, and callbacks made. */
    var acks: seq<nat>
    var calls: seq<nat>

    /** Every bound slot holds a client that knows its slot, and every client that holds a
        channel number is in that slot. */
    ghost predicate Valid()
      reads this, table, clients
    {
      && table.Length < 0x8000_0000
      && (forall i | 0 <= i < table.Length && table[i] != null :: table[i] in clients && table[i].channel == i)
      && (forall c | c in clients && 0 <= c.channel < table.Length :: table[c.channel] == c)
    }

    predicate Bound(c: Channel)
      reads table
    {
      c in table[..]
    }

    /** dmac_init: the table is cleared. */
    constructor (channels: nat)
      requires channels < 0x8000_0000
      ensures Valid() && fresh(table) && table.Length == channels && clients == {}
      ensures forall i | 0 <= i < channels :: table[i] == null
    {
      table := new Channel?[channels](i => null);
      clients := {};
      acks, calls := [], [];
    }

    lemma ValidIsInjective()
      requires Valid()
      ensures Injective(table[..])
      ensures forall c | c in clients :: Bound(c) <==> 0 <= c.channel < table.Length
    {
      forall i, j | 0 <= i < j < table.Length && table[i] != null
        ensures table[i] != table[j]
      {
        assert table[i].channel == i;
      }
    }

    /** dmac_init_channel, only while unbound */
    method InitChannel(c: Channel?) returns (ercd: int)
      requires Valid() && (c != null ==> !Bound(c))
      modifies this`clients, c
      ensures Valid() && ercd == (if c == null then -1 else 0)
      ensures c != null ==> c.source == 0 && c.callback == 0 && c.status == 0
      ensures c != null ==> c.channel == -2 && c.desc == 0 && clients == old(clients) + {c}
      ensures c == null ==> clients == old(clients)
    {
      if c == null {
        return -1;
      }
      c.desc := 0;
      c.source := REQ_SOFT;
      c.callback := 0;
      c.status := IDLE;
      c.channel := CHN_INVALID;
      clients := clients + {c};
      return 0;
    }

    /** dmac_config_channel */
    method ConfigChannel(c: Channel?, desc: u32) returns (ercd: int)
      requires Valid()
      modifies if c == null then {} else {c}
      ensures Valid() && ercd == (if c == null then -1 else 0)
      ensures c != null ==> c.desc == desc && c.channel == old(c.channel) && c.source == old(c.source)
      ensures c != null ==> c.status == old(c.status) && c.callback == old(c.callback)
    {
      if c == null {
        return -1;
      }
      c.desc := desc;
      return 0;
    }

    /** The rest of the table is in order for `c` to take slot `k`. */
    ghost predicate ReadyFor(k: int, c: Channel)
      requires 0 <= k < table.Length
      reads this, table, clients
    {
      && table.Length < 0x8000_0000
      && (forall i | 0 <= i < table.Length && i != k && table[i] != null ::
            table[i] in clients && table[i] != c && table[i].channel == i)
      && (forall d | d in clients && d != c && 0 <= d.channel < table.Length :: d.channel != k && table[d.channel] == d)
    }

    /** dma_claim_channel */
    method Claim(channel: i32, c: Channel, source: u32)
      requires 0 <= channel < table.Length && ReadyFor(channel, c)
      modifies this`clients, table, c
      ensures Valid() && table[..] == old(table[..])[channel := c] && clients == old(clients) + {c}
      ensures c.channel == channel && c.source == source && c.desc == old(c.desc)
      ensures c.callback == 0 && c.status == 0
    {
      table[channel] := c;
      c.source := source;
      c.callback := 0;
      c.status := IDLE;
      c.channel := channel;
      clients := clients + {c};
    }

    /** dmac_reserve_channel, only while unbound */
    method ReserveChannel(channel: i32, c: Channel?, source: u32) returns (r: int)
      requires Valid() && (c != null ==> !Bound(c))
      modifies this`clients, table, c
      ensures Valid()
      ensures r == -2 || 0 <= r < table.Length
      ensures r == -2 ==> table[..] == old(table[..]) && clients == old(clients)
      ensures r == -2 && c != null ==> c.channel == old(c.channel) && c.desc == old(c.desc) && c.source == old(c.source)
      ensures r == -2 && c != null ==> c.status == old(c.status) && c.callback == old(c.callback)
      ensures r != -2 ==> c != null && table[..] == old(table[..])[r := c] && old(table[r]) == null
      ensures r != -2 ==> c.channel == r && c.source == source && c.desc == old(c.desc)
      ensures r != -2 ==> c.callback == 0 && c.status == 0 && clients == old(clients) + {c}
      ensures c != null && channel == -1 && r != -2 ==> LowestFree(old(table[..]), r)
      ensures c != null && channel == -1 && r == -2 ==> |BoundIn(old(table[..]))| == table.Length
      ensures c != null && channel != -1 ==>
                r == if 0 <= channel < table.Length && old(table[..])[channel] == null then channel else -2
    {
      if c == null {
        return CHN_INVALID;
      }
      ValidIsInjective();
      FullIff(table[..]);
      if channel == CHN_ANY {
        for i := 0 to table.Length
          invariant table[..] == old(table[..]) && clients == old(clients) && Valid() && !Bound(c)
          invariant c.channel == old(c.channel) && c.desc == old(c.desc) && c.source == old(c.source)
          invariant c.status == old(c.status) && c.callback == old(c.callback)
          invariant forall j | 0 <= j < i :: table[j] != null
        {
          if table[i] == null {
            table[i] := c;
            Claim(i, c, source);
            return i;
          }
        }
        return CHN_INVALID;
      }
      if Wrap(channel) >= table.Length {
        return CHN_INVALID;
      }
      if table[channel] == null {
        Claim(channel, c, source);
        return channel;
      }
      return CHN_INVALID;
    }

    /** dmac_release_channel: without a descriptor the slot is kept. */
    method ReleaseChannel(c: Channel?) returns (ercd: int)
      requires Valid() && (c != null ==> c in clients)
      modifies table, c
      ensures Valid()
      ensures ercd == if c != null && c.desc != 0 && old(Bound(c)) then 0 else -1
      ensures ercd == -1 ==> table[..] == old(table[..]) && (c != null ==> c.channel == old(c.channel))
      ensures c != null ==> c.desc == old(c.desc) && c.source == old(c.source)
      ensures c != null ==> c.status == old(c.status) && c.callback == old(c.callback)
      ensures ercd == 0 ==> 0 <= old(c.channel) < table.Length && old(table[c.channel]) == c
      ensures ercd == 0 ==> table[..] == old(table[..])[old(c.channel) := null]
      ensures ercd == 0 ==> c.channel == -2 && !Bound(c)
    {
      if c == null {
        return -1;
      }
      if c.desc == 0 {
        return -1;
      }
      ValidIsInjective();
      if Wrap(c.channel) >= table.Length {
        return -1;
      }
      table[c.channel] := null;
      c.channel := CHN_INVALID;
      return 0;
    }

    // ---------------------------------------------------------------- interrupts

    /** Which slots hold a channel with a callback. */
    ghost predicate Callbacks(has: seq<bool>)
      reads table, clients, this
    {
      |has| == table.Length
      && forall i | 0 <= i < table.Length :: has[i] <==> table[i] in clients && table[i].callback != 0
    }

    lemma SameLength(has: seq<bool>)
      requires Callbacks(has)
      ensures |has| == table.Length
    {}

    /** dmac_interrupt_completed_channel and dmac_interrupt_error_channel */
    method InterruptChannel(channel: nat, outcome: int, ghost has: seq<bool>)
      requires Valid() && channel < table.Length && table[channel] != null && Callbacks(has)
      modifies this`acks, this`calls, clients`status
      ensures Valid() && Callbacks(has) && acks == old(acks) + [channel]
      ensures calls == old(calls) + if has[channel] then [channel] else []
      ensures forall c | c in clients :: c.status == if c.channel == channel then outcome else old(c.status)
    {
      acks := acks + [channel];
      var c := table[channel];
      c.status := outcome;
      if c.callback != 0 {
        calls := calls + [channel];
      }
    }

    /** dmac_interrupt_completed (status IDLE, the low half of the status word) and
        dmac_interrupt_error (status ERROR, the high half): every flagged channel, in
        ascending order, is acknowledged, gets its status and is called back once. */
    method Interrupt(word: u32, outcome: int, ghost has: seq<bool>)
      requires Valid() && table.Length <= 16
      requires (forall i | 0 <= i < table.Length && Bit(word, i) :: table[i] != null) && Callbacks(has)
      modifies this`acks, this`calls, clients`status
      ensures Valid() && acks == old(acks) + Flagged(word, table.Length)
      ensures calls == old(calls) + Having(Flagged(word, table.Length), has)
      ensures forall c | c in clients :: c.status == Scanned(word, table.Length, outcome, c.channel, old(c.status))
    {
      NoFlags(word);
      NoneScanned(word, outcome);
      hide Shr, Flagged, Having, Valid, Callbacks, Bit, Scanned;
      assert Having([], has) == [] by { NoneHaving(has); }
      var status: nat := word;
      assert status == Shr(word, 0) by { ShiftZero(word); }
      for channel := 0 to table.Length
        invariant Valid() && status == Shr(word, channel)
        invariant Callbacks(has)
        invariant acks == old(acks) + Flagged(word, channel)
        invariant calls == old(calls) + Having(Flagged(word, channel), has)
        invariant forall c | c in clients :: c.status == Scanned(word, channel, outcome, c.channel, old(c.status))
      {
        SameLength(has);
        BitIs(word, channel);
        OneMoreSlot(word, channel, has, old(acks), old(calls));
        OneMoreScanned(word, channel, channel + 1, outcome);
        if status % 2 == 1 {
          InterruptChannel(channel, outcome, has);
        }
        ShrNext(word, channel);
        status := status / 2;
      }
    }

    // ---------------------------------------------------------------- runs

    /** The client rules: initialise and reserve only while unbound, release only channels
        that were initialised or reserved, the ones it knows. */
    predicate Behaved(op: Op, known: set<Channel>)
      reads this, table
    {
      match op
      case Init(c) => c == null || !Bound(c)
      case Config(c, _) => true
      case Reserve(_, c, _) => c == null || !Bound(c)
      case Release(c) => c == null || c in known
    }

    /** However a client that keeps the rules goes on, the table stays a partial injection
        whose channels know their slots, and no slot is lost: free slots and bound channels
        are always all of them. */
    method RunClient(ops: seq<Op>, known0: set<Channel>) returns (results: seq<int>)
      requires Valid() && known0 == clients
      modifies this`clients, table, (set op | op in ops && op.c != null :: op.c)
      ensures Valid() && Injective(table[..]) && FreeSlots(table[..]) + |BoundIn(table[..])| == table.Length
      ensures |results| == |ops|
    {
      results := [];
      var known := known0;
      for i := 0 to |ops|
        invariant Valid() && |results| == i && known == clients
      {
        var r := CHN_INVALID;
        if Behaved(ops[i], known) {
          match ops[i]
          case Init(c) =>
            r := InitChannel(c);
            if c != null { known := known + {c}; }
          case Config(c, desc) => r := ConfigChannel(c, desc);
          case Reserve(channel, c, source) =>
            r := ReserveChannel(channel, c, source);
            if r != CHN_INVALID { known := known + {c}; }
          case Release(c) => r := ReleaseChannel(c);
        }
        results := results + [r];
      }
      ValidIsInjective();
      FreePlusBound(table[..]);
    }
  }
}
