/** The register logic of the DWMAC4 Ethernet core in
    drivers/net/ethernet/stmicro/stmmac/dwmac4_lib.c: starting and stopping
    the DMA channels, masking their interrupts, decoding a channel's
    interrupt status, writing and reading the MAC address, switching the
    MAC on and off, and programming a VLAN filter.

    Registers are 32-bit words in a register file that also logs every
    write. The values of the register bits are defined in headers that are
    not part of this model, so they are parameters; the predicates below
    say what the properties need of them. */
module Dwmac4Lib {

  /** A 32-bit register word as its bits: w[i] is bit i (value 2^i). */
  type Word = w: seq<bool> | |w| == 32
    witness [false, false, false, false, false, false, false, false,
    false, false, false, false, false, false, false, false,
    false, false, false, false, false, false, false, false,
    false, false, false, false, false, false, false, false]

  /** An 8-bit byte as its bits, b[i] being bit i. */
  type Byte = b: seq<bool> | |b| == 8 witness [false, false, false, false, false, false, false, false]

  /** The word 0. */
  function Zero(): Word
  {
    seq(32, i => false)
  }

  /** The mask of bits 0 to n-1 (2^n - 1). */
  function LowMask(n: nat): Word
  {
    seq(32, i => i < n)
  }

  /** `w | m`: the bits of m set. */
  function SetBits(w: Word, m: Word): Word
  {
    seq(32, i requires 0 <= i < 32 => w[i] || m[i])
  }

  /** `w & ~m`: the bits of m cleared. */
  function ClearBits(w: Word, m: Word): Word
  {
    seq(32, i requires 0 <= i < 32 => w[i] && !m[i])
  }

  /** `w & m`: the bits of w that m selects. */
  function Bits(w: Word, m: Word): Word
  {
    seq(32, i requires 0 <= i < 32 => w[i] && m[i])
  }

  /** `x << s`: bits shifted past bit 31 are lost. */
  function Shifted(x: Word, s: nat): Word
  {
    seq(32, i requires 0 <= i < 32 => s <= i && x[i - s])
  }

  /** `x >> s` (logical). */
  function ShiftedDown(x: Word, s: nat): Word
  {
    seq(32, i requires 0 <= i < 32 => i + s < 32 && x[i + s])
  }

  /** Whether any bit of mask is set in w (`w & mask` used as a test). */
  predicate Has(w: Word, mask: Word)
  {
    exists i :: 0 <= i < 32 && w[i] && mask[i]
  }

  /** No bit is set in both (`m & n == 0`). */
  predicate Disjoint(m: Word, n: Word)
  {
    forall i :: 0 <= i < 32 ==> !(m[i] && n[i])
  }

  /** No bit of w from lo up to hi is set. */
  predicate NoneIn(w: Word, lo: nat, hi: nat)
  {
    forall i :: lo <= i < hi && i < 32 ==> !w[i]
  }

  /** w is below 2^n as an unsigned number: no bit from n up is set. */
  predicate Fits(w: Word, n: nat)
  {
    NoneIn(w, n, 32)
  }

  lemma SetSets(w: Word, m: Word)
    ensures Bits(SetBits(w, m), m) == m
  {
  }

  lemma SetKeeps(w: Word, m: Word)
    ensures ClearBits(SetBits(w, m), m) == ClearBits(w, m)
  {
  }

  lemma ClearClears(w: Word, m: Word)
    ensures Bits(ClearBits(w, m), m) == Zero()
  {
  }

  lemma ClearTwice(w: Word, m: Word)
    ensures ClearBits(ClearBits(w, m), m) == ClearBits(w, m)
  {
  }

  lemma SetAfterClear(w: Word, m: Word)
    ensures SetBits(ClearBits(w, m), m) == SetBits(w, m)
  {
  }

  lemma SetTwice(w: Word, m: Word)
    ensures SetBits(SetBits(w, m), m) == SetBits(w, m)
  {
  }

  lemma SetUnion(w: Word, m: Word, n: Word)
    ensures SetBits(SetBits(w, m), n) == SetBits(w, SetBits(m, n))
  {
  }

  lemma ClearUnion(w: Word, m: Word, n: Word)
    ensures ClearBits(ClearBits(w, m), n) == ClearBits(w, SetBits(m, n))
  {
  }

  lemma SetNone(w: Word)
    ensures SetBits(w, Zero()) == w
  {
  }

  lemma ClearNone(w: Word)
    ensures ClearBits(w, Zero()) == w
  {
  }

  lemma UnionCommutes(m: Word, n: Word)
    ensures SetBits(m, n) == SetBits(n, m)
  {
  }

  // ---------------------------------------------------------------------
  // The register file

  /** The registers the file touches. The MAC address registers are at
      offsets the caller passes in, At(offset). */
  datatype Reg =
    | GmacConfig
    | TxControl(chan: nat)      // DMA_CHAN_TX_CONTROL(chan)
    | RxControl(chan: nat)      // DMA_CHAN_RX_CONTROL(chan)
    | IntrEna(chan: nat)        // DMA_CHAN_INTR_ENA(chan)
    | ChanStatus(chan: nat)     // DMA_CHAN_STATUS(chan)
    | VlanCtrlTag
    | VlanDataTag
    | MtlRxQmap
    | At(offset: nat)

  datatype Write = Write(reg: Reg, value: Word)

  /** The device's registers, as an ideal store: a register reads what was
      last written to it (0 before that). writes logs every writel. */
  class Mmio {
    var regs: map<Reg, Word>
    var writes: seq<Write>

    constructor ()
      ensures regs == map[] && writes == []
    {
      regs := map[];
      writes := [];
    }

    function Read(r: Reg): Word
      reads this
    {
      if r in regs then regs[r] else Zero()
    }

    /** writel. */
    method WriteReg(r: Reg, v: Word)
      modifies this
      ensures regs == old(regs)[r := v] && writes == old(writes) + [Write(r, v)]
      ensures Read(r) == v && forall q :: q != r ==> Read(q) == old(Read(q))
    {
      regs := regs[r := v];
      writes := writes + [Write(r, v)];
    }
  }

  // ---------------------------------------------------------------------
  // Starting and stopping the DMA channels (dwmac4_lib.c:38-77)

  /** DMA_CONTROL_ST, DMA_CONTROL_SR, GMAC_CONFIG_TE and GMAC_CONFIG_RE. */
  datatype RunBits = RunBits(st: Word, sr: Word, te: Word, re: Word)

  /** dwmac4_dma_start_tx (dwmac4_lib.c:38-48): sets ST in the channel's TX
      control and TE in the MAC configuration, keeping all other bits. */
  method StartTx(io: Mmio, chan: nat, b: RunBits)
    modifies io
    ensures io.Read(TxControl(chan)) == SetBits(old(io.Read(TxControl(chan))), b.st)
    ensures io.Read(GmacConfig) == SetBits(old(io.Read(GmacConfig)), b.te)
    ensures forall q :: q != TxControl(chan) && q != GmacConfig ==> io.Read(q) == old(io.Read(q))
    ensures io.writes == old(io.writes) + [Write(TxControl(chan), io.Read(TxControl(chan))), Write(GmacConfig, io.Read(GmacConfig))]
  {
    var value := io.Read(TxControl(chan));
    value := SetBits(value, b.st);
    io.WriteReg(TxControl(chan), value);
    value := io.Read(GmacConfig);
    value := SetBits(value, b.te);
    io.WriteReg(GmacConfig, value);
  }

  /** dwmac4_dma_stop_tx (dwmac4_lib.c:50-56): clears ST only; TE stays. */
  method StopTx(io: Mmio, chan: nat, b: RunBits)
    modifies io
    ensures io.Read(TxControl(chan)) == ClearBits(old(io.Read(TxControl(chan))), b.st)
    ensures forall q :: q != TxControl(chan) ==> io.Read(q) == old(io.Read(q))
    ensures io.writes == old(io.writes) + [Write(TxControl(chan), io.Read(TxControl(chan)))]
  {
    var value := io.Read(TxControl(chan));
    value := ClearBits(value, b.st);
    io.WriteReg(TxControl(chan), value);
  }

  /** dwmac4_dma_start_rx (dwmac4_lib.c:58-69): sets SR in the channel's RX
      control and RE in the MAC configuration. */
  method StartRx(io: Mmio, chan: nat, b: RunBits)
    modifies io
    ensures io.Read(RxControl(chan)) == SetBits(old(io.Read(RxControl(chan))), b.sr)
    ensures io.Read(GmacConfig) == SetBits(old(io.Read(GmacConfig)), b.re)
    ensures forall q :: q != RxControl(chan) && q != GmacConfig ==> io.Read(q) == old(io.Read(q))
    ensures io.writes == old(io.writes) + [Write(RxControl(chan), io.Read(RxControl(chan))), Write(GmacConfig, io.Read(GmacConfig))]
  {
    var value := io.Read(RxControl(chan));
    value := SetBits(value, b.sr);
    io.WriteReg(RxControl(chan), value);
    value := io.Read(GmacConfig);
    value := SetBits(value, b.re);
    io.WriteReg(GmacConfig, value);
  }

  /** dwmac4_dma_stop_rx (dwmac4_lib.c:71-77): clears SR only; RE stays. */
  method StopRx(io: Mmio, chan: nat, b: RunBits)
    modifies io
    ensures io.Read(RxControl(chan)) == ClearBits(old(io.Read(RxControl(chan))), b.sr)
    ensures forall q :: q != RxControl(chan) ==> io.Read(q) == old(io.Read(q))
    ensures io.writes == old(io.writes) + [Write(RxControl(chan), io.Read(RxControl(chan)))]
  {
    var value := io.Read(RxControl(chan));
    value := ClearBits(value, b.sr);
    io.WriteReg(RxControl(chan), value);
  }

  /** Starting then stopping a TX channel leaves its ST bit clear and the
      rest of its control word as it was, but the MAC transmitter on: stop
      does not undo the TE that start set. */
  method StartThenStopTx(io: Mmio, chan: nat, b: RunBits)
    modifies io
    ensures Bits(io.Read(TxControl(chan)), b.st) == Zero()
    ensures io.Read(TxControl(chan)) == ClearBits(old(io.Read(TxControl(chan))), b.st)
    ensures Bits(io.Read(GmacConfig), b.te) == b.te
  {
    ghost var w := io.Read(TxControl(chan));
    StartTx(io, chan, b);
    SetSets(io.Read(GmacConfig), b.te);
    StopTx(io, chan, b);
    ClearClears(SetBits(w, b.st), b.st);
    SetKeeps(w, b.st);
  }

  /** Starting then stopping an RX channel: SR clear again, RE left on. */
  method StartThenStopRx(io: Mmio, chan: nat, b: RunBits)
    modifies io
    ensures Bits(io.Read(RxControl(chan)), b.sr) == Zero()
    ensures io.Read(RxControl(chan)) == ClearBits(old(io.Read(RxControl(chan))), b.sr)
    ensures Bits(io.Read(GmacConfig), b.re) == b.re
  {
    ghost var w := io.Read(RxControl(chan));
    StartRx(io, chan, b);
    SetSets(io.Read(GmacConfig), b.re);
    StopRx(io, chan, b);
    ClearClears(SetBits(w, b.sr), b.sr);
    SetKeeps(w, b.sr);
  }

  // ---------------------------------------------------------------------
  // Channel interrupt enables (dwmac4_lib.c:89-135)

  /** The bits an enable or disable call works on: the RX mask when rx is
      asked for, the TX mask when tx is. */
  function Selected(rx: bool, tx: bool, rxMask: Word, txMask: Word): Word
  {
    if rx && tx then SetBits(rxMask, txMask) else if rx then rxMask else if tx then txMask else Zero()
  }

  /** The interrupt-enable word after an enable call: the RX mask OR-ed in
      when rx is asked for, then the TX mask when tx is. */
  function EnableIrqValue(value: Word, rx: bool, tx: bool, rxMask: Word, txMask: Word): Word
  {
    var v := if rx then SetBits(value, rxMask) else value;
    if tx then SetBits(v, txMask) else v
  }

  /** The interrupt-enable word after a disable call: the RX mask cleared
      when rx is asked for, then the TX mask when tx is. */
  function DisableIrqValue(value: Word, rx: bool, tx: bool, rxMask: Word, txMask: Word): Word
  {
    var v := if rx then ClearBits(value, rxMask) else value;
    if tx then ClearBits(v, txMask) else v
  }

  /** Enabling ORs in exactly the selected masks. */
  lemma EnableIsSet(value: Word, rx: bool, tx: bool, rxMask: Word, txMask: Word)
    ensures EnableIrqValue(value, rx, tx, rxMask, txMask) == SetBits(value, Selected(rx, tx, rxMask, txMask))
  {
    if rx && tx {
      SetUnion(value, rxMask, txMask);
    } else if !rx && !tx {
      SetNone(value);
    }
  }

  /** Disabling clears exactly the selected masks. */
  lemma DisableIsClear(value: Word, rx: bool, tx: bool, rxMask: Word, txMask: Word)
    ensures DisableIrqValue(value, rx, tx, rxMask, txMask) == ClearBits(value, Selected(rx, tx, rxMask, txMask))
  {
    if rx && tx {
      ClearUnion(value, rxMask, txMask);
    } else if !rx && !tx {
      ClearNone(value);
    }
  }

  /** After an enable call the selected masks are all set and every other
      bit is as it was. */
  lemma EnableIrqBits(value: Word, rx: bool, tx: bool, rxMask: Word, txMask: Word)
    ensures Bits(EnableIrqValue(value, rx, tx, rxMask, txMask), Selected(rx, tx, rxMask, txMask))
            == Selected(rx, tx, rxMask, txMask)
    ensures ClearBits(EnableIrqValue(value, rx, tx, rxMask, txMask), Selected(rx, tx, rxMask, txMask))
            == ClearBits(value, Selected(rx, tx, rxMask, txMask))
  {
    EnableIsSet(value, rx, tx, rxMask, txMask);
    SetSets(value, Selected(rx, tx, rxMask, txMask));
    SetKeeps(value, Selected(rx, tx, rxMask, txMask));
  }

  /** After a disable call the selected masks are all clear and every
      other bit is as it was. */
  lemma DisableIrqBits(value: Word, rx: bool, tx: bool, rxMask: Word, txMask: Word)
    ensures Bits(DisableIrqValue(value, rx, tx, rxMask, txMask), Selected(rx, tx, rxMask, txMask)) == Zero()
    ensures ClearBits(DisableIrqValue(value, rx, tx, rxMask, txMask), Selected(rx, tx, rxMask, txMask))
            == ClearBits(value, Selected(rx, tx, rxMask, txMask))
  {
    DisableIsClear(value, rx, tx, rxMask, txMask);
    ClearClears(value, Selected(rx, tx, rxMask, txMask));
    ClearTwice(value, Selected(rx, tx, rxMask, txMask));
  }

  /** Disabling what was enabled leaves the selected bits clear and the
      others as they were; enabling what was disabled leaves them set: the
      two calls differ only on the selected bits. */
  lemma EnableDisableInverse(value: Word, rx: bool, tx: bool, rxMask: Word, txMask: Word)
    ensures DisableIrqValue(EnableIrqValue(value, rx, tx, rxMask, txMask), rx, tx, rxMask, txMask)
            == ClearBits(value, Selected(rx, tx, rxMask, txMask))
    ensures EnableIrqValue(DisableIrqValue(value, rx, tx, rxMask, txMask), rx, tx, rxMask, txMask)
            == SetBits(value, Selected(rx, tx, rxMask, txMask))
  {
    var sel := Selected(rx, tx, rxMask, txMask);
    EnableIsSet(value, rx, tx, rxMask, txMask);
    DisableIsClear(SetBits(value, sel), rx, tx, rxMask, txMask);
    SetKeeps(value, sel);
    DisableIsClear(value, rx, tx, rxMask, txMask);
    EnableIsSet(ClearBits(value, sel), rx, tx, rxMask, txMask);
    SetAfterClear(value, sel);
  }

  /** DMA_CHAN_INTR_DEFAULT_RX/TX and their 4.10 variants. */
  datatype IrqMasks = IrqMasks(rx: Word, tx: Word, rx410: Word, tx410: Word)

  /** dwmac4_enable_dma_irq and dwmac410_enable_dma_irq
      (dwmac4_lib.c:89-111), which differ only in the masks (v410). */
  method EnableDmaIrq(io: Mmio, chan: nat, rx: bool, tx: bool, m: IrqMasks, v410: bool)
    modifies io
    ensures var rxMask := if v410 then m.rx410 else m.rx;
      var txMask := if v410 then m.tx410 else m.tx;
      io.Read(IntrEna(chan)) == EnableIrqValue(old(io.Read(IntrEna(chan))), rx, tx, rxMask, txMask)
    ensures forall q :: q != IntrEna(chan) ==> io.Read(q) == old(io.Read(q))
    ensures io.writes == old(io.writes) + [Write(IntrEna(chan), io.Read(IntrEna(chan)))]
  {
    var rxMask := if v410 then m.rx410 else m.rx;
    var txMask := if v410 then m.tx410 else m.tx;
    var value := io.Read(IntrEna(chan));
    if rx {
      value := SetBits(value, rxMask);
    }
    if tx {
      value := SetBits(value, txMask);
    }
    io.WriteReg(IntrEna(chan), value);
  }

  /** dwmac4_disable_dma_irq and dwmac410_disable_dma_irq
      (dwmac4_lib.c:113-135). */
  method DisableDmaIrq(io: Mmio, chan: nat, rx: bool, tx: bool, m: IrqMasks, v410: bool)
    modifies io
    ensures var rxMask := if v410 then m.rx410 else m.rx;
      var txMask := if v410 then m.tx410 else m.tx;
      io.Read(IntrEna(chan)) == DisableIrqValue(old(io.Read(IntrEna(chan))), rx, tx, rxMask, txMask)
    ensures forall q :: q != IntrEna(chan) ==> io.Read(q) == old(io.Read(q))
    ensures io.writes == old(io.writes) + [Write(IntrEna(chan), io.Read(IntrEna(chan)))]
  {
    var rxMask := if v410 then m.rx410 else m.rx;
    var txMask := if v410 then m.tx410 else m.tx;
    var value := io.Read(IntrEna(chan));
    if rx {
      value := ClearBits(value, rxMask);
    }
    if tx {
      value := ClearBits(value, txMask);
    }
    io.WriteReg(IntrEna(chan), value);
  }

  // ---------------------------------------------------------------------
  // Channel interrupt status (dwmac4_lib.c:137-188)

  /** DMA_DIR_RX, DMA_DIR_TX, or any other direction (both). */
  datatype Dir = DirRx | DirTx | DirRxTx

  /** The DMA_CHAN_STATUS_* bits and the per-direction masks. */
  datatype StatusBits = StatusBits(
    mskRx: Word, mskTx: Word,
    ais: Word, rbu: Word, rps: Word, rwt: Word, eti: Word, tps: Word, fbe: Word,
    nis: Word, ri: Word, ti: Word, tbu: Word, eri: Word)

  /** The status restricted to the direction being serviced. */
  function Masked(status: Word, dir: Dir, b: StatusBits): Word
  {
    match dir
    case DirRx => Bits(status, b.mskRx)
    case DirTx => Bits(status, b.mskTx)
    case DirRxTx => status
  }

  /** The return value, as the flags tx_hard_error, handle_rx and
      handle_tx it ORs together. */
  datatype IrqRet = IrqRet(hardError: bool, handleRx: bool, handleTx: bool)

  /** The decision the handler takes on a (masked) status word, step by
      step in the order the handler takes it. Only abnormal interrupts
      (AIS) can report a hard error, and then only for a stopped TX process
      (TPS) or a fatal bus error (FBE); RX work is reported exactly for RI;
      TX work for TI or an unavailable TX buffer (TBU). */
  function IrqFlags(s: Word, b: StatusBits): (r: IrqRet)
    ensures r.hardError <==> Has(s, b.ais) && (Has(s, b.tps) || Has(s, b.fbe))
    ensures r.handleRx <==> Has(s, b.ri)
    ensures r.handleTx <==> Has(s, b.ti) || Has(s, b.tbu)
  {
    var r := IrqRet(false, false, false);
    var r := if Has(s, b.ais) && Has(s, b.tps) then r.(hardError := true) else r;
    var r := if Has(s, b.ais) && Has(s, b.fbe) then r.(hardError := true) else r;
    var r := if Has(s, b.ri) then r.(handleRx := true) else r;
    var r := if Has(s, b.ti) then r.(handleTx := true) else r;
    if Has(s, b.tbu) then r.(handleTx := true) else r
  }

  /** A status masked by msk has no bit that msk leaves out. */
  lemma MaskedOut(status: Word, msk: Word, bit: Word)
    requires Disjoint(msk, bit)
    ensures !Has(Bits(status, msk), bit)
  {
  }

  /** Servicing the RX direction never asks for TX work when the RX mask
      leaves out the TI and TBU bits, and servicing TX never asks for RX
      work when the TX mask leaves out RI. */
  lemma DirectionsStayApart(status: Word, b: StatusBits)
    ensures Disjoint(b.mskRx, b.ti) && Disjoint(b.mskRx, b.tbu) ==> !IrqFlags(Masked(status, DirRx, b), b).handleTx
    ensures Disjoint(b.mskTx, b.ri) ==> !IrqFlags(Masked(status, DirTx, b), b).handleRx
  {
    if Disjoint(b.mskRx, b.ti) && Disjoint(b.mskRx, b.tbu) {
      MaskedOut(status, b.mskRx, b.ti);
      MaskedOut(status, b.mskRx, b.tbu);
    }
    if Disjoint(b.mskTx, b.ri) {
      MaskedOut(status, b.mskTx, b.ri);
    }
  }

  /** struct stmmac_extra_stats: the counters the handler bumps. */
  class ExtraStats {
    var rxBufUnavIrq: nat
    var rxProcessStoppedIrq: nat
    var rxWatchdogIrq: nat
    var txEarlyIrq: nat
    var txProcessStoppedIrq: nat
    var fatalBusErrorIrq: nat
    var normalIrqN: nat
    var rxNormalIrqN: nat
    var txNormalIrqN: nat
    var rxEarlyIrq: nat
    var rxqNormalIrqN: seq<nat>   // rxq_stats[chan].rx_normal_irq_n
    var txqNormalIrqN: seq<nat>   // txq_stats[chan].tx_normal_irq_n

    constructor (queues: nat)
      ensures rxBufUnavIrq == rxProcessStoppedIrq == rxWatchdogIrq == txEarlyIrq == 0
      ensures txProcessStoppedIrq == fatalBusErrorIrq == normalIrqN == rxNormalIrqN == txNormalIrqN == rxEarlyIrq == 0
      ensures |rxqNormalIrqN| == |txqNormalIrqN| == queues
    {
      rxBufUnavIrq, rxProcessStoppedIrq, rxWatchdogIrq, txEarlyIrq := 0, 0, 0, 0;
      txProcessStoppedIrq, fatalBusErrorIrq, normalIrqN, rxNormalIrqN, txNormalIrqN, rxEarlyIrq := 0, 0, 0, 0, 0, 0;
      rxqNormalIrqN := seq(queues, _ => 0);
      txqNormalIrqN := seq(queues, _ => 0);
    }
  }

  /** 1 when the bit is set, else 0: one bump of a counter. */
  function Bump(bit: bool): nat
  {
    if bit then 1 else 0
  }

  /** Which status bits a (masked) status word has. */
  datatype StatusFlags = StatusFlags(
    ais: bool, rbu: bool, rps: bool, rwt: bool, eti: bool, tps: bool, fbe: bool,
    nis: bool, ri: bool, ti: bool, tbu: bool, eri: bool)

  function Decode(s: Word, b: StatusBits): StatusFlags
  {
    StatusFlags(Has(s, b.ais), Has(s, b.rbu), Has(s, b.rps), Has(s, b.rwt), Has(s, b.eti),
                Has(s, b.tps), Has(s, b.fbe), Has(s, b.nis), Has(s, b.ri), Has(s, b.ti),
                Has(s, b.tbu), Has(s, b.eri))
  }

  /** The abnormal-interrupt block of dwmac4_dma_interrupt
      (dwmac4_lib.c:149-167): under AIS, each error bit bumps its counter;
      a stopped TX process or a fatal bus error is a hard error. */
  method AbnormalIrq(x: ExtraStats, f: StatusFlags) returns (hardError: bool)
    modifies x
    ensures hardError <==> f.ais && (f.tps || f.fbe)
    ensures x.rxBufUnavIrq == old(x.rxBufUnavIrq) + Bump(f.ais && f.rbu)
    ensures x.rxProcessStoppedIrq == old(x.rxProcessStoppedIrq) + Bump(f.ais && f.rps)
    ensures x.rxWatchdogIrq == old(x.rxWatchdogIrq) + Bump(f.ais && f.rwt)
    ensures x.txEarlyIrq == old(x.txEarlyIrq) + Bump(f.ais && f.eti)
    ensures x.txProcessStoppedIrq == old(x.txProcessStoppedIrq) + Bump(f.ais && f.tps)
    ensures x.fatalBusErrorIrq == old(x.fatalBusErrorIrq) + Bump(f.ais && f.fbe)
    ensures x.normalIrqN == old(x.normalIrqN) && x.rxNormalIrqN == old(x.rxNormalIrqN)
    ensures x.txNormalIrqN == old(x.txNormalIrqN) && x.rxEarlyIrq == old(x.rxEarlyIrq)
    ensures x.rxqNormalIrqN == old(x.rxqNormalIrqN) && x.txqNormalIrqN == old(x.txqNormalIrqN)
  {
    hardError := false;
    if f.ais {
      if f.rbu {
        x.rxBufUnavIrq := x.rxBufUnavIrq + 1;
      }
      if f.rps {
        x.rxProcessStoppedIrq := x.rxProcessStoppedIrq + 1;
      }
      if f.rwt {
        x.rxWatchdogIrq := x.rxWatchdogIrq + 1;
      }
      if f.eti {
        x.txEarlyIrq := x.txEarlyIrq + 1;
      }
      if f.tps {
        x.txProcessStoppedIrq := x.txProcessStoppedIrq + 1;
        hardError := true;
      }
      if f.fbe {
        x.fatalBusErrorIrq := x.fatalBusErrorIrq + 1;
        hardError := true;
      }
    }
  }

  /** The normal-interrupt part of dwmac4_dma_interrupt
      (dwmac4_lib.c:168-185): NIS, RI, TI and ERI bump their counters, RI
      and TI also the channel's queue counter; RI asks for RX work, TI or
      TBU for TX work. */
  method NormalIrq(x: ExtraStats, f: StatusFlags, chan: nat) returns (handleRx: bool, handleTx: bool)
    requires chan < |x.rxqNormalIrqN| && chan < |x.txqNormalIrqN|
    modifies x
    ensures handleRx <==> f.ri
    ensures handleTx <==> f.ti || f.tbu
    ensures x.normalIrqN == old(x.normalIrqN) + Bump(f.nis)
    ensures x.rxNormalIrqN == old(x.rxNormalIrqN) + Bump(f.ri)
    ensures x.txNormalIrqN == old(x.txNormalIrqN) + Bump(f.ti)
    ensures x.rxEarlyIrq == old(x.rxEarlyIrq) + Bump(f.eri)
    ensures x.rxqNormalIrqN == old(x.rxqNormalIrqN)[chan := old(x.rxqNormalIrqN[chan]) + Bump(f.ri)]
    ensures x.txqNormalIrqN == old(x.txqNormalIrqN)[chan := old(x.txqNormalIrqN[chan]) + Bump(f.ti)]
    ensures x.rxBufUnavIrq == old(x.rxBufUnavIrq) && x.rxProcessStoppedIrq == old(x.rxProcessStoppedIrq)
    ensures x.rxWatchdogIrq == old(x.rxWatchdogIrq) && x.txEarlyIrq == old(x.txEarlyIrq)
    ensures x.txProcessStoppedIrq == old(x.txProcessStoppedIrq) && x.fatalBusErrorIrq == old(x.fatalBusErrorIrq)
  {
    handleRx, handleTx := false, false;
    if f.nis {
      x.normalIrqN := x.normalIrqN + 1;
    }
    if f.ri {
      x.rxNormalIrqN := x.rxNormalIrqN + 1;
      x.rxqNormalIrqN := x.rxqNormalIrqN[chan := x.rxqNormalIrqN[chan] + 1];
      handleRx := true;
    }
    if f.ti {
      x.txNormalIrqN := x.txNormalIrqN + 1;
      x.txqNormalIrqN := x.txqNormalIrqN[chan := x.txqNormalIrqN[chan] + 1];
      handleTx := true;
    }
    if f.tbu {
      handleTx := true;
    }
    if f.eri {
      x.rxEarlyIrq := x.rxEarlyIrq + 1;
    }
  }

  /** dwmac4_dma_interrupt (dwmac4_lib.c:137-188). The status is restricted
      to the direction; the abnormal counters move only under AIS, the
      normal ones on their own bits; RI also bumps the channel's RX queue
      counter and TI its TX queue counter; the returned flags are those
      IrqFlags decides; the status bits that are enabled are written back
      to acknowledge them. */
  method DmaInterrupt(io: Mmio, x: ExtraStats, chan: nat, dir: Dir, b: StatusBits) returns (ret: IrqRet)
    requires chan < |x.rxqNormalIrqN| && chan < |x.txqNormalIrqN|
    modifies io, x
    ensures var s := Masked(old(io.Read(ChanStatus(chan))), dir, b);
      ret == IrqFlags(s, b) &&
      io.writes == old(io.writes) + [Write(ChanStatus(chan), Bits(s, old(io.Read(IntrEna(chan)))))]
    ensures var f := Decode(Masked(old(io.Read(ChanStatus(chan))), dir, b), b);
      x.rxBufUnavIrq == old(x.rxBufUnavIrq) + Bump(f.ais && f.rbu) &&
      x.rxProcessStoppedIrq == old(x.rxProcessStoppedIrq) + Bump(f.ais && f.rps) &&
      x.rxWatchdogIrq == old(x.rxWatchdogIrq) + Bump(f.ais && f.rwt) &&
      x.txEarlyIrq == old(x.txEarlyIrq) + Bump(f.ais && f.eti) &&
      x.txProcessStoppedIrq == old(x.txProcessStoppedIrq) + Bump(f.ais && f.tps) &&
      x.fatalBusErrorIrq == old(x.fatalBusErrorIrq) + Bump(f.ais && f.fbe)
    ensures var f := Decode(Masked(old(io.Read(ChanStatus(chan))), dir, b), b);
      x.normalIrqN == old(x.normalIrqN) + Bump(f.nis) &&
      x.rxNormalIrqN == old(x.rxNormalIrqN) + Bump(f.ri) &&
      x.txNormalIrqN == old(x.txNormalIrqN) + Bump(f.ti) &&
      x.rxEarlyIrq == old(x.rxEarlyIrq) + Bump(f.eri) &&
      x.rxqNormalIrqN == old(x.rxqNormalIrqN)[chan := old(x.rxqNormalIrqN[chan]) + Bump(f.ri)] &&
      x.txqNormalIrqN == old(x.txqNormalIrqN)[chan := old(x.txqNormalIrqN[chan]) + Bump(f.ti)]
  {
    var intrStatus := io.Read(ChanStatus(chan));
    var intrEn := io.Read(IntrEna(chan));
    intrStatus := Masked(intrStatus, dir, b);
    var f := Decode(intrStatus, b);
    var hardError := AbnormalIrq(x, f);
    var handleRx, handleTx := NormalIrq(x, f, chan);
    ret := IrqRet(hardError, handleRx, handleTx);
    io.WriteReg(ChanStatus(chan), Bits(intrStatus, intrEn));
  }

  // ---------------------------------------------------------------------
  // The MAC address (dwmac4_lib.c:190-237)

  const NullByte: Byte := [false, false, false, false, false, false, false, false]

  /** A MAC address: six bytes, addr[0] first on the wire. */
  type MacAddr = a: seq<Byte> | |a| == 6 witness [NullByte, NullByte, NullByte, NullByte, NullByte, NullByte]

  /** GMAC_HI_REG_AE and the channel-0 DCS field
      (STMMAC_CHAN0 << GMAC_HI_DCS_SHIFT). */
  datatype MacBits = MacBits(ae: Word, dcs: Word)

  /** The address bytes and the flags share the high register only if the
      flags lie above bit 15. */
  predicate FlagsAboveAddress(b: MacBits)
  {
    NoneIn(b.ae, 0, 16) && NoneIn(b.dcs, 0, 16)
  }

  /** Four bytes packed: a0 in bits 0-7, a1 in 8-15, a2 in 16-23, a3 in
      24-31. */
  function PackLow(a0: Byte, a1: Byte, a2: Byte, a3: Byte): Word
  {
    a0 + a1 + a2 + a3
  }

  /** Two bytes packed: a4 in bits 0-7, a5 in bits 8-15, the rest 0. */
  function PackHigh(a4: Byte, a5: Byte): Word
  {
    a4 + a5 + seq(16, _ => false)
  }

  /** The low register's word for an address. (In the source the shifts
      are done in int and widened to unsigned long; writel keeps the low
      32 bits, which are these.) */
  function MacLowWord(addr: MacAddr): Word
  {
    PackLow(addr[0], addr[1], addr[2], addr[3])
  }

  /** The high register's word: addr[4] and addr[5], with the DCS field
      and then AE OR-ed in. */
  function MacHighWord(addr: MacAddr, b: MacBits): Word
  {
    SetBits(SetBits(PackHigh(addr[4], addr[5]), b.dcs), b.ae)
  }

  /** `(w >> shift) & 0xff`: the byte of w at bit shift. */
  function ByteAt(w: Word, shift: nat): Byte
    requires shift <= 24
  {
    w[shift..shift + 8]
  }

  /** stmmac_dwmac4_get_mac_addr's decoding: the four bytes of the low
      word, then bits 0-15 of the high word. */
  function MacFromWords(hi: Word, lo: Word): MacAddr
  {
    [ByteAt(lo, 0), ByteAt(lo, 8), ByteAt(lo, 16), ByteAt(lo, 24), ByteAt(hi, 0), ByteAt(hi, 8)]
  }

  /** The four bytes packed into a low word read back from it. */
  lemma LowBytes(a0: Byte, a1: Byte, a2: Byte, a3: Byte)
    ensures var lo := PackLow(a0, a1, a2, a3);
      [ByteAt(lo, 0), ByteAt(lo, 8), ByteAt(lo, 16), ByteAt(lo, 24)] == [a0, a1, a2, a3]
  {
    var lo := PackLow(a0, a1, a2, a3);
    assert ByteAt(lo, 0) == a0;
    assert ByteAt(lo, 8) == a1;
    assert ByteAt(lo, 16) == a2;
    assert ByteAt(lo, 24) == a3;
  }

  /** The two bytes packed into a high word read back from it, whatever
      flags above bit 15 are OR-ed in. */
  lemma HighBytes(a4: Byte, a5: Byte, b: MacBits)
    requires FlagsAboveAddress(b)
    ensures var hi := SetBits(SetBits(PackHigh(a4, a5), b.dcs), b.ae);
      ByteAt(hi, 0) == a4 && ByteAt(hi, 8) == a5
  {
    var hi := SetBits(SetBits(PackHigh(a4, a5), b.dcs), b.ae);
    assert forall i :: 0 <= i < 8 ==> hi[i] == a4[i];
    assert forall i :: 0 <= i < 8 ==> hi[8 + i] == a5[i];
  }

  /** Reading back the words written for an address gives the address,
      when the flags lie above bit 15. */
  lemma MacRoundTrip(addr: MacAddr, b: MacBits)
    requires FlagsAboveAddress(b)
    ensures MacFromWords(MacHighWord(addr, b), MacLowWord(addr)) == addr
  {
    LowBytes(addr[0], addr[1], addr[2], addr[3]);
    HighBytes(addr[4], addr[5], b);
  }

  /** A low word is the four bytes read from it packed again. */
  lemma LowRepack(lo: Word)
    ensures PackLow(ByteAt(lo, 0), ByteAt(lo, 8), ByteAt(lo, 16), ByteAt(lo, 24)) == lo
  {
    assert lo == lo[0..8] + lo[8..16] + lo[16..24] + lo[24..32];
  }

  /** Bits 0-15 of a high word are the two bytes read from it packed again. */
  lemma HighRepack(hi: Word)
    ensures PackHigh(ByteAt(hi, 0), ByteAt(hi, 8)) == Bits(hi, LowMask(16))
  {
    var p := PackHigh(ByteAt(hi, 0), ByteAt(hi, 8));
    assert forall i :: 0 <= i < 16 ==> p[i] == hi[i];
    assert forall i :: 16 <= i < 32 ==> !p[i];
  }

  /** The other way: the low word is determined by the address read from
      it, and the high word up to its flags. */
  lemma MacWordsRoundTrip(hi: Word, lo: Word, b: MacBits)
    ensures MacLowWord(MacFromWords(hi, lo)) == lo
    ensures MacHighWord(MacFromWords(hi, lo), b) == SetBits(SetBits(Bits(hi, LowMask(16)), b.dcs), b.ae)
  {
    LowRepack(lo);
    HighRepack(hi);
  }

  /** Without that condition the round trip can fail: an AE flag in bit 0
      reads back as part of addr[4]. */
  lemma MacRoundTripNeedsFlagsAbove()
    ensures var b := MacBits(LowMask(1), Zero());
      var addr: MacAddr := seq(6, _ => ByteAt(Zero(), 0));
      MacFromWords(MacHighWord(addr, b), MacLowWord(addr))[4] != addr[4]
  {
    var b := MacBits(LowMask(1), Zero());
    var addr: MacAddr := seq(6, _ => ByteAt(Zero(), 0));
    assert MacHighWord(addr, b)[0];
  }

  /** stmmac_dwmac4_set_mac_addr (dwmac4_lib.c:190-204): the high word,
      then the low word. */
  method SetMacAddr(io: Mmio, addr: MacAddr, high: nat, low: nat, b: MacBits)
    modifies io
    ensures io.writes == old(io.writes) + [Write(At(high), MacHighWord(addr, b)), Write(At(low), MacLowWord(addr))]
    ensures io.regs == old(io.regs)[At(high) := MacHighWord(addr, b)][At(low) := MacLowWord(addr)]
  {
    var data := PackHigh(addr[4], addr[5]);
    data := SetBits(data, b.dcs);
    io.WriteReg(At(high), SetBits(data, b.ae));
    data := PackLow(addr[0], addr[1], addr[2], addr[3]);
    io.WriteReg(At(low), data);
  }

  /** stmmac_dwmac4_get_mac_addr (dwmac4_lib.c:221-237). */
  method GetMacAddr(io: Mmio, high: nat, low: nat) returns (addr: MacAddr)
    ensures addr == MacFromWords(io.Read(At(high)), io.Read(At(low)))
  {
    var hiAddr := io.Read(At(high));
    var loAddr := io.Read(At(low));
    addr := [ByteAt(loAddr, 0), ByteAt(loAddr, 8), ByteAt(loAddr, 16), ByteAt(loAddr, 24),
             ByteAt(hiAddr, 0), ByteAt(hiAddr, 8)];
  }

  /** Setting an address and reading it back from the same two (distinct)
      registers returns it. */
  method SetThenGetMacAddr(io: Mmio, addr: MacAddr, high: nat, low: nat, b: MacBits) returns (back: MacAddr)
    requires FlagsAboveAddress(b) && high != low
    modifies io
    ensures back == addr
  {
    SetMacAddr(io, addr, high, low, b);
    back := GetMacAddr(io, high, low);
    MacRoundTrip(addr, b);
  }

  // ---------------------------------------------------------------------
  // MAC receiver and transmitter (dwmac4_lib.c:206-219)

  /** The configuration word after stmmac_dwmac4_set_mac: RE|TE OR-ed in
      on enable, TE|RE cleared on disable. */
  function MacConfigValue(value: Word, enable: bool, b: RunBits): Word
  {
    if enable then SetBits(value, SetBits(b.re, b.te)) else ClearBits(value, SetBits(b.te, b.re))
  }

  /** On enable RE and TE are both set, on disable both clear, and every
      other bit is kept. */
  lemma MacConfigBits(value: Word, enable: bool, b: RunBits)
    ensures enable ==> Bits(MacConfigValue(value, enable, b), SetBits(b.re, b.te)) == SetBits(b.re, b.te)
    ensures !enable ==> Bits(MacConfigValue(value, enable, b), SetBits(b.re, b.te)) == Zero()
    ensures ClearBits(MacConfigValue(value, enable, b), SetBits(b.re, b.te)) == ClearBits(value, SetBits(b.re, b.te))
  {
    UnionCommutes(b.te, b.re);
    if enable {
      SetSets(value, SetBits(b.re, b.te));
      SetKeeps(value, SetBits(b.re, b.te));
    } else {
      ClearClears(value, SetBits(b.re, b.te));
      ClearTwice(value, SetBits(b.re, b.te));
    }
  }

  /** Switching the MAC to the state it is already in leaves the word as
      it is: the second of two equal calls changes nothing. */
  lemma MacConfigIdempotent(value: Word, enable: bool, b: RunBits)
    ensures MacConfigValue(MacConfigValue(value, enable, b), enable, b) == MacConfigValue(value, enable, b)
  {
    if enable {
      SetTwice(value, SetBits(b.re, b.te));
    } else {
      ClearTwice(value, SetBits(b.te, b.re));
    }
  }

  /** stmmac_dwmac4_set_mac (dwmac4_lib.c:206-219): writes the new
      configuration only when it differs from the old one. */
  method SetMac(io: Mmio, enable: bool, b: RunBits)
    modifies io
    ensures io.Read(GmacConfig) == MacConfigValue(old(io.Read(GmacConfig)), enable, b)
    ensures io.writes == old(io.writes) +
      (if MacConfigValue(old(io.Read(GmacConfig)), enable, b) != old(io.Read(GmacConfig))
       then [Write(GmacConfig, io.Read(GmacConfig))] else [])
    ensures forall q :: q != GmacConfig ==> io.Read(q) == old(io.Read(q))
  {
    var value := io.Read(GmacConfig);
    var oldVal := value;
    if enable {
      value := SetBits(value, SetBits(b.re, b.te));
    } else {
      value := ClearBits(value, SetBits(b.te, b.re));
    }
    if value != oldVal {
      io.WriteReg(GmacConfig, value);
    }
  }

  /** Repeating stmmac_dwmac4_set_mac writes nothing the second time. */
  method SetMacTwice(io: Mmio, enable: bool, b: RunBits)
    modifies io
    ensures |io.writes| <= |old(io.writes)| + 1
    ensures io.Read(GmacConfig) == MacConfigValue(old(io.Read(GmacConfig)), enable, b)
  {
    SetMac(io, enable, b);
    ghost var once := io.writes;
    MacConfigIdempotent(old(io.Read(GmacConfig)), enable, b);
    SetMac(io, enable, b);
    assert io.writes == once;
  }

  // ---------------------------------------------------------------------
  // VLAN filter (dwmac4_lib.c:239-307)

  /** struct vlan_filter_info. */
  datatype VlanFilterInfo = VlanFilterInfo(rxQueue: Word, vlanOffset: Word, vlanId: Word)

  /** The GMAC_VLANTR_* bits, their shifts, and GMAC_MTL_RXQ_DMACH. */
  datatype VlanBits = VlanBits(
    en: Word, cmp: Word, cmpDisable: Word, dmaChanEn: Word, chanNumShift: nat,
    ob: Word, ct: Word, offsetShift: nat, rxqDmach: Word)

  /** The data word written for a filter: the VLAN id with the enable,
      compare, compare-disable and DMA-channel-enable flags and the queue
      number at its shift. */
  function VlanDataWord(v: VlanFilterInfo, b: VlanBits): Word
  {
    SetBits(SetBits(SetBits(SetBits(SetBits(v.vlanId, b.en), b.cmp), b.cmpDisable), b.dmaChanEn),
            Shifted(v.rxQueue, b.chanNumShift))
  }

  /** The flags of the data word, together. */
  function VlanFlags(b: VlanBits): Word
  {
    SetBits(SetBits(SetBits(b.en, b.cmp), b.cmpDisable), b.dmaChanEn)
  }

  /** The data word's fields do not overlap: the VLAN id in bits 0-11, the
      queue number in the two bits from chanNumShift, the flags elsewhere. */
  predicate DataFieldsApart(b: VlanBits)
  {
    12 <= b.chanNumShift <= 30 && NoneIn(VlanFlags(b), 0, 12) &&
    NoneIn(VlanFlags(b), b.chanNumShift, b.chanNumShift + 2)
  }

  /** A filter the function accepts can be read back from its data word:
      the VLAN id from bits 0-11 and the queue from its field. */
  lemma VlanDataRoundTrip(v: VlanFilterInfo, b: VlanBits)
    requires DataFieldsApart(b) && Fits(v.rxQueue, 2) && Fits(v.vlanId, 12)
    ensures Bits(VlanDataWord(v, b), LowMask(12)) == v.vlanId
    ensures Bits(ShiftedDown(VlanDataWord(v, b), b.chanNumShift), LowMask(2)) == v.rxQueue
  {
    var w := VlanDataWord(v, b);
    var s := b.chanNumShift;
    assert forall i :: 0 <= i < 32 ==> w[i] == (v.vlanId[i] || VlanFlags(b)[i] || (s <= i && v.rxQueue[i - s]));
    assert forall i :: 0 <= i < 12 ==> w[i] == v.vlanId[i];
    assert forall i :: 0 <= i < 2 ==> w[s + i] == v.rxQueue[i];
  }

  /** The control word written once the engine is idle: the busy (OB) bit
      set to start the operation, the CT bit cleared, the filter offset at
      its shift, everything else as read. */
  function VlanCtrlWord(read: Word, offset: Word, b: VlanBits): Word
  {
    SetBits(ClearBits(SetBits(read, b.ob), b.ct), Shifted(offset, b.offsetShift))
  }

  datatype Option<T> = None | Some(value: T)

  /** The VLAN engine is not busy: the OB bit of the control word is clear. */
  predicate Idle(w: Word, ob: Word)
  {
    !Has(w, ob)
  }

  /** A busy-wait loop. read(k) is the k-th read of the VLAN control
      register; the loop reads from k on, with its counter starting at
      count, and gives up once the counter passes 5. The result is the
      number of the read that found the engine idle: no read before it
      did, and when there is none, every read the loop made was busy. */
  function Poll(read: nat -> Word, k: nat, count: nat, ob: Word): Option<nat>
    decreases 6 - count
  {
    if count > 5 then None
    else if Idle(read(k), ob) then Some(k)
    else Poll(read, k + 1, count + 1, ob)
  }

  /** What Poll finds: a read within the loop's window that is idle, with
      every earlier read busy; or, when it finds none, every read of the
      window busy. */
  lemma {:induction false} PollMeaning(read: nat -> Word, k: nat, count: nat, ob: Word)
    decreases 6 - count
    ensures var r := Poll(read, k, count, ob);
      r.Some? ==> k <= r.value < k + 6 - count && Idle(read(r.value), ob)
    ensures var r := Poll(read, k, count, ob);
      forall j :: k <= j && (r.Some? ==> j < r.value) && (r.None? ==> j < k + 6 - count) ==> !Idle(read(j), ob)
  {
    if count <= 5 && !Idle(read(k), ob) {
      PollMeaning(read, k + 1, count + 1, ob);
    }
  }

  /** How the VLAN function ends. */
  datatype VlanOutcome = BadArgs | BusyBeforeData | BusyBeforeCtrl | Configured

  /** One busy-wait loop of the VLAN function: reads the control register
      (read number n is read(n), starting at k) until it is idle or the
      counter passes 5. */
  method WaitIdle(read: nat -> Word, k: nat, count0: nat, ob: Word) returns (idle: Option<nat>)
    requires count0 <= 6
    ensures idle == Poll(read, k, count0, ob)
  {
    var count := count0;
    var n := k;
    while true
      invariant count0 <= count <= 6 && n == k + (count - count0)
      invariant Poll(read, n, count, ob) == Poll(read, k, count0, ob)
      decreases 6 - count
    {
      if count > 5 {
        return None;
      }
      var value := read(n);
      if Idle(value, ob) {
        return Some(n);
      }
      count := count + 1;
      n := n + 1;
    }
  }

  /** The write of the data word (dwmac4_lib.c:277-285). */
  method WriteVlanData(io: Mmio, v: VlanFilterInfo, b: VlanBits)
    modifies io
    ensures io.writes == old(io.writes) + [Write(VlanDataTag, VlanDataWord(v, b))]
    ensures io.regs == old(io.regs)[VlanDataTag := VlanDataWord(v, b)]
  {
    var value := v.vlanId;
    value := SetBits(value, b.en);
    value := SetBits(value, b.cmp);
    value := SetBits(value, b.cmpDisable);
    value := SetBits(value, b.dmaChanEn);
    value := SetBits(value, Shifted(v.rxQueue, b.chanNumShift));
    io.WriteReg(VlanDataTag, value);
  }

  /** The write of the control word, once a read found the engine idle
      (dwmac4_lib.c:293-298). */
  method WriteVlanCtrl(io: Mmio, read: Word, offset: Word, b: VlanBits)
    modifies io
    ensures io.writes == old(io.writes) + [Write(VlanCtrlTag, VlanCtrlWord(read, offset, b))]
    ensures io.regs == old(io.regs)[VlanCtrlTag := VlanCtrlWord(read, offset, b)]
  {
    var value := read;
    value := SetBits(value, b.ob);
    value := ClearBits(value, b.ct);
    value := SetBits(value, Shifted(offset, b.offsetShift));
    io.WriteReg(VlanCtrlTag, value);
  }

  /** Routing the queue to its DMA channel (dwmac4_lib.c:303-306). */
  method RouteQueue(io: Mmio, b: VlanBits)
    modifies io
    ensures io.writes == old(io.writes) + [Write(MtlRxQmap, SetBits(old(io.Read(MtlRxQmap)), b.rxqDmach))]
  {
    var value := io.Read(MtlRxQmap);
    value := SetBits(value, b.rxqDmach);
    io.WriteReg(MtlRxQmap, value);
  }

  /** stmmac_set_vlan_filter_rx_queue (dwmac4_lib.c:244-307). A queue
      above 3 or an id above 4095 is refused before any register access.
      Otherwise it waits (at most six reads) for the VLAN engine to be
      idle, writes the data word, waits again (at most five reads) and
      writes the control word, then routes the queue to its DMA channel.
      Each wait that finds the engine busy throughout ends the call with
      nothing more written. */
  method SetVlanFilter(io: Mmio, v: VlanFilterInfo, read: nat -> Word, b: VlanBits) returns (out: VlanOutcome)
    modifies io
    ensures !Fits(v.rxQueue, 2) || !Fits(v.vlanId, 12) <==> out == BadArgs
    ensures out == BusyBeforeData <==> !(!Fits(v.rxQueue, 2) || !Fits(v.vlanId, 12)) && Poll(read, 0, 0, b.ob).None?
    ensures out == BadArgs || out == BusyBeforeData ==> io.writes == old(io.writes) && io.regs == old(io.regs)
    ensures out == BusyBeforeCtrl ==>
      var first := Poll(read, 0, 0, b.ob);
      first.Some? && Poll(read, first.value + 1, 1, b.ob).None? &&
      io.writes == old(io.writes) + [Write(VlanDataTag, VlanDataWord(v, b))]
    ensures out == Configured ==>
      var first := Poll(read, 0, 0, b.ob);
      first.Some? && Poll(read, first.value + 1, 1, b.ob).Some? &&
      var ctrl := VlanCtrlWord(read(Poll(read, first.value + 1, 1, b.ob).value), v.vlanOffset, b);
      io.writes == old(io.writes) +
        [Write(VlanDataTag, VlanDataWord(v, b)), Write(VlanCtrlTag, ctrl),
         Write(MtlRxQmap, SetBits(old(io.Read(MtlRxQmap)), b.rxqDmach))]
  {
    // queue >= 4 and vlan_id >= 4096, on the words' bits
    if !Fits(v.rxQueue, 2) {
      return BadArgs;
    }
    if !Fits(v.vlanId, 12) {
      return BadArgs;
    }
    var first := WaitIdle(read, 0, 0, b.ob);
    if first.None? {
      return BusyBeforeData;
    }
    WriteVlanData(io, v, b);
    var second := WaitIdle(read, first.value + 1, 1, b.ob);
    if second.None? {
      return BusyBeforeCtrl;
    }
    WriteVlanCtrl(io, read(second.value), v.vlanOffset, b);
    RouteQueue(io, b);
    out := Configured;
  }
}
