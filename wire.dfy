/** The SPI link to the panel controller: an RS line that selects command or
    data mode, and a blocking byte write that either succeeds or fails.

    The bus is modelled as the trace of every write attempted so far plus an
    oracle: the write that becomes trace entry k fails exactly when k is in
    `fails`. Every failure is reported as the single code EIO, so OR-ing two
    return codes, as the driver does, yields EIO exactly when either failed. */
module Wire {
  import opened Frame

  datatype Mode = Cmd | Data

  /** One spi_write call: the RS level and the bytes handed to the bus. */
  datatype Event = Event(mode: Mode, bytes: seq<u8>)

  datatype Bus = Bus(trace: seq<Event>, fails: set<nat>)

  /** A controller register and the byte written to it. */
  datatype Reg = Reg(addr: u8, val: u8)

  const EIO: int := -5
  const ENOMEM: int := -12

  /** A return code of a bus operation. */
  predicate IsBusCode(r: int) {
    r == 0 || r == EIO
  }

  /** `a | b` on two bus return codes. */
  function OrErr(a: int, b: int): (r: int)
    requires IsBusCode(a) && IsBusCode(b)
    ensures IsBusCode(r)
    ensures r == 0 <==> a == 0 && b == 0
  {
    if a == 0 && b == 0 then 0 else EIO
  }

  /** spi_write: the attempt is recorded whether or not it fails. */
  function Write(b: Bus, mode: Mode, bytes: seq<u8>): (Bus, int)
  {
    (Bus(b.trace + [Event(mode, bytes)], b.fails), if |b.trace| in b.fails then EIO else 0)
  }

  // ---------------------------------------------------------------------
  // Pixel byte order

  /** A pixel on the wire: high byte first. */
  function Split16(p: u16): (b: seq<u8>)
    ensures |b| == 2 && Join16(b[0], b[1]) == p
  {
    [p / 256, p % 256]
  }

  /** The pixel a receiver rebuilds from its two bytes. */
  function Join16(hi: u8, lo: u8): u16 {
    hi * 256 + lo
  }

  lemma JoinSplit(hi: u8, lo: u8)
    ensures Split16(Join16(hi, lo)) == [hi, lo]
  {
  }

  // ---------------------------------------------------------------------
  // Writes that stop at the first failure

  /** Each chunk as one event of the given mode, in order. */
  function Events(mode: Mode, chunks: seq<seq<u8>>): (es: seq<Event>)
    ensures |es| == |chunks|
    ensures forall i :: 0 <= i < |chunks| ==> es[i] == Event(mode, chunks[i])
  {
    seq(|chunks|, i requires 0 <= i < |chunks| => Event(mode, chunks[i]))
  }

  /** The first k events of a non-empty run: its first chunk's event, then k - 1 of the rest. */
  lemma EventsCons(mode: Mode, chunks: seq<seq<u8>>, k: int)
    requires 1 <= k <= |chunks|
    ensures Events(mode, chunks)[..k] == [Event(mode, chunks[0])] + Events(mode, chunks[1..])[..k - 1]
  {
  }

  /** Writes the chunks one at a time and gives up after the first failed write. */
  function SendEach(b: Bus, mode: Mode, chunks: seq<seq<u8>>): (Bus, int)
    decreases |chunks|
  {
    if chunks == [] then (b, 0)
    else
      var (b1, r) := Write(b, mode, chunks[0]);
      if r != 0 then (b1, r) else SendEach(b1, mode, chunks[1..])
  }

  /** Sending two runs back to back, the second only if the first went out whole, is
      sending their concatenation. */
  lemma {:induction false} SendEachAppend(b: Bus, mode: Mode, c0: seq<seq<u8>>, c1: seq<seq<u8>>)
    ensures SendEach(b, mode, c0 + c1) ==
      var (b1, r1) := SendEach(b, mode, c0);
      if r1 != 0 then (b1, r1) else SendEach(b1, mode, c1)
    decreases |c0|
  {
    if c0 == [] {
      assert c0 + c1 == c1;
    } else {
      assert (c0 + c1)[0] == c0[0];
      assert (c0 + c1)[1..] == c0[1..] + c1;
      var (b1, r) := Write(b, mode, c0[0]);
      if r == 0 {
        SendEachAppend(b1, mode, c0[1..], c1);
      }
    }
  }

  /** No write at a trace position in [lo, hi) fails. */
  predicate NoFail(fails: set<nat>, lo: int, hi: int) {
    forall j :: lo <= j < hi ==> j !in fails
  }

  /** SendEach appends a prefix of the chunk events ... */
  lemma {:induction false} SendEachTrace(b: Bus, mode: Mode, chunks: seq<seq<u8>>)
    ensures SentPrefix(b, mode, chunks, SendEach(b, mode, chunks).0)
    decreases |chunks|
  {
    if chunks != [] {
      var (b1, r) := Write(b, mode, chunks[0]);
      if r == 0 {
        SendEachTrace(b1, mode, chunks[1..]);
        SentPrefixCons(b, mode, chunks, SendEach(b1, mode, chunks[1..]).0);
      } else {
        assert Events(mode, chunks)[..1] == [Event(mode, chunks[0])];
      }
    }
  }

  /** b' is b with the events of some first writes of the run appended, and nothing else
      changed. */
  ghost predicate SentPrefix(b: Bus, mode: Mode, chunks: seq<seq<u8>>, b': Bus) {
    var k := |b'.trace| - |b.trace|;
    && b'.fails == b.fails
    && 0 <= k <= |chunks|
    && b'.trace == b.trace + Events(mode, chunks)[..k]
  }

  /** A prefix of the rest of the run after a first write is a prefix of the whole run. */
  lemma SentPrefixCons(b: Bus, mode: Mode, chunks: seq<seq<u8>>, b': Bus)
    requires chunks != []
    requires SentPrefix(Write(b, mode, chunks[0]).0, mode, chunks[1..], b')
    ensures SentPrefix(b, mode, chunks, b')
  {
    var k := |b'.trace| - |b.trace|;
    EventsCons(mode, chunks, k);
    assert b'.trace == b.trace + [Event(mode, chunks[0])] + Events(mode, chunks[1..])[..k - 1];
  }

  /** ... that runs up to and including the first failing write; it reports success exactly
      when no write failed, and then everything was sent. */
  lemma {:induction false} SendEachResult(b: Bus, mode: Mode, chunks: seq<seq<u8>>)
    ensures var (b', r) := SendEach(b, mode, chunks);
      var n, k := |b.trace|, |b'.trace| - |b.trace|;
      && IsBusCode(r)
      && (r == 0 <==> NoFail(b.fails, n, n + |chunks|))
      && (r == 0 ==> k == |chunks|)
      && (r != 0 ==> 1 <= k && NoFail(b.fails, n, n + k - 1) && n + k - 1 in b.fails)
    decreases |chunks|
  {
    if chunks != [] {
      var (b1, r) := Write(b, mode, chunks[0]);
      if r == 0 {
        SendEachResult(b1, mode, chunks[1..]);
        NoFailSplit(b.fails, |b.trace|, |b.trace| + 1, |b.trace| + |chunks|);
      }
    }
  }

  /** Both halves together. */
  lemma SendEachSpec(b: Bus, mode: Mode, chunks: seq<seq<u8>>)
    ensures var (b', r) := SendEach(b, mode, chunks);
      var n, k := |b.trace|, |b'.trace| - |b.trace|;
      && b'.fails == b.fails
      && 0 <= k <= |chunks|
      && b'.trace == b.trace + Events(mode, chunks)[..k]
      && IsBusCode(r)
      && (r == 0 <==> NoFail(b.fails, n, n + |chunks|))
      && (r == 0 ==> k == |chunks|)
      && (r != 0 ==> 1 <= k && NoFail(b.fails, n, n + k - 1) && n + k - 1 in b.fails)
  {
    SendEachTrace(b, mode, chunks);
    SendEachResult(b, mode, chunks);
  }

  lemma NoFailSplit(fails: set<nat>, lo: int, mid: int, hi: int)
    requires lo <= mid <= hi
    ensures NoFail(fails, lo, hi) <==> NoFail(fails, lo, mid) && NoFail(fails, mid, hi)
  {
  }

  // ---------------------------------------------------------------------
  // Register writes

  /** ls020_write_reg: the register byte, then the value byte, both in command mode;
      the value is not sent when the register byte fails. */
  function WriteReg(b: Bus, reg: Reg): (Bus, int)
  {
    var (b1, r) := Write(b, Cmd, [reg.addr]);
    if r != 0 then (b1, r) else Write(b1, Cmd, [reg.val])
  }

  /** A run of register writes that are all attempted, their results OR-ed together in
      order (`ret = write_reg(...); ret |= write_reg(...); ...`). */
  function WriteRegsOr(b: Bus, regs: seq<Reg>): (Bus, int)
    decreases |regs|
  {
    if regs == [] then (b, 0)
    else
      var (b1, r1) := WriteRegsOr(b, regs[..|regs| - 1]);
      var (b2, r2) := WriteReg(b1, regs[|regs| - 1]);
      (b2, OrErr(r1, r2))
  }

  /** One more register write at the end of a run: the step `ret |= write_reg(...)`. */
  lemma WriteRegsOrSnoc(b: Bus, regs: seq<Reg>, k: int)
    requires 0 <= k < |regs|
    ensures var (b1, r1) := WriteRegsOr(b, regs[..k]);
      var (b2, r2) := WriteReg(b1, regs[k]);
      WriteRegsOr(b, regs[..k + 1]) == (b2, OrErr(r1, r2))
  {
    assert regs[..k + 1][..k] == regs[..k];
  }

  /** The events of register writes that all succeed. */
  function RegEvents(regs: seq<Reg>): (es: seq<Event>)
    ensures |es| == 2 * |regs|
    decreases |regs|
  {
    if regs == [] then []
    else RegEvents(regs[..|regs| - 1]) + [Event(Cmd, [regs[|regs| - 1].addr]), Event(Cmd, [regs[|regs| - 1].val])]
  }

  lemma {:induction false} RegEventsAppend(a: seq<Reg>, c: seq<Reg>)
    ensures RegEvents(a + c) == RegEvents(a) + RegEvents(c)
    decreases |c|
  {
    if c == [] {
      assert a + c == a;
    } else {
      var init := c[..|c| - 1];
      assert (a + c)[..|a + c| - 1] == a + init;
      RegEventsAppend(a, init);
    }
  }

  /** Everything appended since `b` is a command-mode event. */
  ghost predicate OnlyCommandsAfter(b: Bus, b': Bus) {
    && |b.trace| <= |b'.trace|
    && b'.trace[..|b.trace|] == b.trace
    && b'.fails == b.fails
    && forall i :: |b.trace| <= i < |b'.trace| ==> b'.trace[i].mode == Cmd
  }

  /** What one register write leaves on the bus when its register byte becomes trace entry
      m: the register byte, then the value byte only if the register byte went through. */
  function RegAttempt(fails: set<nat>, m: nat, reg: Reg): seq<Event> {
    if m in fails then [Event(Cmd, [reg.addr])]
    else [Event(Cmd, [reg.addr]), Event(Cmd, [reg.val])]
  }

  /** What a run of register writes whose results are OR-ed leaves on the bus when it
      starts at trace entry m: every register is tried, in order, whatever became of the
      ones before it. */
  function RegAttempts(fails: set<nat>, m: nat, regs: seq<Reg>): (es: seq<Event>)
    ensures |regs| <= |es| <= 2 * |regs|
    decreases |regs|
  {
    if regs == [] then []
    else
      var first := RegAttempt(fails, m, regs[0]);
      first + RegAttempts(fails, m + |first|, regs[1..])
  }

  /** When none of the writes fails, the attempts are the complete register/value pairs. */
  lemma {:induction false} RegAttemptsAllSent(fails: set<nat>, m: nat, regs: seq<Reg>)
    requires NoFail(fails, m, m + 2 * |regs|)
    ensures RegAttempts(fails, m, regs) == RegEvents(regs)
    decreases |regs|
  {
    if regs != [] {
      assert m !in fails;
      RegAttemptsAllSent(fails, m + 2, regs[1..]);
      RegEventsAppend([regs[0]], regs[1..]);
      assert [regs[0]] + regs[1..] == regs;
      assert [regs[0]][..0] == [];
    }
  }

  /** A register write leaves its attempt on the bus and nothing else. */
  lemma WriteRegAttempt(b: Bus, reg: Reg)
    ensures WriteReg(b, reg).0 == Bus(b.trace + RegAttempt(b.fails, |b.trace|, reg), b.fails)
  {
  }

  /** A register write sends only commands; it succeeds exactly when both of its writes
      do. A failed register byte is the last thing it sends; otherwise the value byte
      follows, whether or not that one fails. The two clauses on `|b.trace| in b.fails` are
      the two cases of the `RegAttempt` clause after them, spelled out. */
  lemma WriteRegSpec(b: Bus, reg: Reg)
    ensures var (b', r) := WriteReg(b, reg);
      && OnlyCommandsAfter(b, b')
      && IsBusCode(r)
      && (r == 0 <==> NoFail(b.fails, |b.trace|, |b.trace| + 2))
      && (|b.trace| in b.fails ==> r == EIO && b'.trace == b.trace + [Event(Cmd, [reg.addr])])
      && (|b.trace| !in b.fails ==> b'.trace == b.trace + RegEvents([reg]))
      && b'.trace == b.trace + RegAttempt(b.fails, |b.trace|, reg)
  {
    assert [reg][..0] == [];
  }

  lemma OnlyCommandsTrans(b0: Bus, b1: Bus, b2: Bus)
    requires OnlyCommandsAfter(b0, b1) && OnlyCommandsAfter(b1, b2)
    ensures OnlyCommandsAfter(b0, b2)
  {
    assert b2.trace[..|b1.trace|][..|b0.trace|] == b2.trace[..|b0.trace|];
  }

  /** A run of OR-ed register writes sends only commands ... */
  lemma {:induction false} WriteRegsOrCommands(b: Bus, regs: seq<Reg>)
    ensures OnlyCommandsAfter(b, WriteRegsOr(b, regs).0)
    decreases |regs|
  {
    if regs != [] {
      var init := regs[..|regs| - 1];
      WriteRegsOrCommands(b, init);
      var b1 := WriteRegsOr(b, init).0;
      WriteRegSpec(b1, regs[|regs| - 1]);
      OnlyCommandsTrans(b, b1, WriteRegsOr(b, regs).0);
    }
  }

  /** ... and reports success exactly when none of its writes failed, and then it sent the
      register/value pairs in order. */
  lemma {:induction false} WriteRegsOrOk(b: Bus, regs: seq<Reg>)
    ensures var (b', r) := WriteRegsOr(b, regs);
      && IsBusCode(r)
      && (r == 0 <==> NoFail(b.fails, |b.trace|, |b.trace| + 2 * |regs|))
      && (r == 0 ==> b'.trace == b.trace + RegEvents(regs))
    decreases |regs|
  {
    if regs != [] {
      var n, k := |b.trace|, |regs|;
      var init, last := regs[..k - 1], regs[k - 1];
      WriteRegsOrOk(b, init);
      WriteRegsOrCommands(b, init);
      var (b1, r1) := WriteRegsOr(b, init);
      WriteRegSpec(b1, last);
      NoFailSplit(b.fails, n, n + 2 * (k - 1), n + 2 * k);
      if r1 == 0 {
        assert RegEvents([last])[..0] == [];
        assert RegEvents(regs) == RegEvents(init) + RegEvents([last]);
        var (b2, r2) := WriteReg(b1, last);
        if r2 == 0 {
          assert b2.trace == b.trace + RegEvents(init) + RegEvents([last]);
        }
      }
    }
  }

  /** The attempts of a run with one more register: that register is tried right after the
      attempts of the others. */
  lemma {:induction false} RegAttemptsSnoc(fails: set<nat>, m: nat, regs: seq<Reg>, reg: Reg)
    ensures RegAttempts(fails, m, regs + [reg]) ==
      RegAttempts(fails, m, regs) + RegAttempt(fails, m + |RegAttempts(fails, m, regs)|, reg)
    decreases |regs|
  {
    if regs == [] {
      assert [] + [reg] == [reg];
    } else {
      var first := RegAttempt(fails, m, regs[0]);
      assert (regs + [reg])[0] == regs[0];
      assert (regs + [reg])[1..] == regs[1..] + [reg];
      RegAttemptsSnoc(fails, m + |first|, regs[1..], reg);
    }
  }

  /** ... and leaves exactly the attempts of every register on the bus. */
  lemma {:induction false} WriteRegsOrTrace(b: Bus, regs: seq<Reg>)
    ensures WriteRegsOr(b, regs).0 == Bus(b.trace + RegAttempts(b.fails, |b.trace|, regs), b.fails)
    decreases |regs|
  {
    if regs != [] {
      var init, last := regs[..|regs| - 1], regs[|regs| - 1];
      WriteRegsOrTrace(b, init);
      var b1 := WriteRegsOr(b, init).0;
      var b2 := WriteReg(b1, last).0;
      assert WriteRegsOr(b, regs).0 == b2;
      WriteRegAttempt(b1, last);
      var pre := RegAttempts(b.fails, |b.trace|, init);
      assert b2.trace == b.trace + pre + RegAttempt(b.fails, |b.trace| + |pre|, last);
      assert init + [last] == regs;
      RegAttemptsSnoc(b.fails, |b.trace|, init, last);
    }
  }

  /** All together: every register of the run is tried whatever failed before it, the
      register byte of each going out and its value byte unless that register byte failed;
      the result is 0 exactly when none of these writes failed. */
  lemma WriteRegsOrSpec(b: Bus, regs: seq<Reg>)
    ensures var (b', r) := WriteRegsOr(b, regs);
      && OnlyCommandsAfter(b, b')
      && IsBusCode(r)
      && (r == 0 <==> NoFail(b.fails, |b.trace|, |b.trace| + 2 * |regs|))
      && (r == 0 ==> b'.trace == b.trace + RegEvents(regs))
      && b'.trace == b.trace + RegAttempts(b.fails, |b.trace|, regs)
      && |regs| <= |b'.trace| - |b.trace| <= 2 * |regs|
  {
    WriteRegsOrCommands(b, regs);
    WriteRegsOrOk(b, regs);
    WriteRegsOrTrace(b, regs);
  }
}
