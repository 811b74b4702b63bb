// The transmit ring of apps/mac/star_nic.c: send_frame against the DMA engine, one
// shared-memory step at a time.
module NicTx {
  import opened Bits
  import opened RingIndex

  const RING: nat := 16              // STAR_NIC_MAX_TFD_NUM
  const MIN_SIZE: nat := 60          // PKT_MIN_SIZE
  const BUFFER: nat := 1536          // MAX_PACKET_LEN

  type Frame = seq<byte>

  // A descriptor and its buffer.  own is cown: true for the CPU, false for the device.
  datatype Desc = Desc(own: bool, length: nat, buf: seq<byte>)

  // Where a call of send_frame is; the semaphore lets only one in.
  datatype Pc = Idle | Test(f: Frame) | Fill(f: Frame) | Pad(f: Frame) | Give(f: Frame) | Wake | Advance

  // dma is the descriptor the engine looks at next, running whether it looks; wire is what has
  // left, accepted what send_frame has taken, refused the number of calls it has turned away.
  datatype State = State(ring: seq<Desc>, cur: nat, dma: nat, running: bool, pc: Pc,
                         wire: seq<Frame>, accepted: seq<Frame>, refused: nat)

  datatype Step = Call(frame: Frame) | Cpu | Dma

  // ---- the machine ----

  function Padded(f: Frame): (r: Frame)
    ensures |r| == (if |f| < 60 then 60 else |f|) && r[..|f|] == f
    ensures forall i :: |f| <= i < |r| ==> r[i] == 0
  {
    if |f| < MIN_SIZE then f + seq(MIN_SIZE - |f|, _ => 0) else f
  }

  predicate WellShaped(s: State)
  {
    && |s.ring| == RING && s.cur < RING && s.dma < RING
    && (forall i :: 0 <= i < RING ==> |s.ring[i].buf| == BUFFER)
    && (s.pc.Test? || s.pc.Fill? || s.pc.Pad? || s.pc.Give? ==> |s.pc.f| <= BUFFER)
  }

  // star_nic_buffer_alloc
  ghost predicate Init(s: State)
  {
    && WellShaped(s) && s.cur == 0 && s.dma == 0 && s.pc == Idle && s.wire == [] && s.accepted == []
    && forall i :: 0 <= i < RING ==> s.ring[i].own
  }

  // memcpy into the buffer
  function Copied(buf: seq<byte>, f: Frame): seq<byte>
    requires |f| <= |buf|
  {
    f + buf[|f|..]
  }

  // The length field and the zero bytes behind a short frame.
  function Measured(d: Desc, n: nat): Desc
    requires |d.buf| == BUFFER && n <= BUFFER
  {
    if n < MIN_SIZE then Desc(d.own, MIN_SIZE, d.buf[..n] + seq(MIN_SIZE - n, _ => 0) + d.buf[MIN_SIZE..])
    else d.(length := n)
  }

  // The next step of the call under way.
  function CpuStep(s: State): State
    requires WellShaped(s)
  {
    var d := s.ring[s.cur];
    match s.pc
    case Idle => s
    case Test(f) => if !d.own then s.(pc := Idle, refused := s.refused + 1) else s.(pc := Fill(f))
    case Fill(f) => s.(ring := s.ring[s.cur := d.(buf := Copied(d.buf, f))], pc := Pad(f))
    case Pad(f) => s.(ring := s.ring[s.cur := Measured(d, |f|)], pc := Give(f))
    case Give(f) => s.(ring := s.ring[s.cur := d.(own := false)], pc := Wake, accepted := s.accepted + [Padded(f)])
    case Wake => s.(running := true, pc := Advance)
    case Advance => s.(cur := Succ(s.cur, RING), pc := Idle)
  }

  // The engine sends the frame of the descriptor it looks at; it stops if that is not its own.
  function DmaStep(s: State): State
    requires WellShaped(s)
  {
    var d := s.ring[s.dma];
    if !s.running || d.length > |d.buf| then s
    else if d.own then s.(running := false)
    else s.(ring := s.ring[s.dma := d.(own := true)], dma := Succ(s.dma, RING), wire := s.wire + [d.buf[..d.length]])
  }

  function Next(s: State, step: Step): (r: State)
    requires WellShaped(s)
    ensures WellShaped(r)
  {
    match step
    case Call(f) => if s.pc == Idle && |f| <= BUFFER then s.(pc := Test(f)) else s
    case Cpu => CpuStep(s)
    case Dma => DmaStep(s)
  }

  // ---- the invariant ----

  // The index the next frame to be accepted will have.
  function Tail(s: State): nat { if s.pc == Wake || s.pc == Advance then Succ(s.cur, RING) else s.cur }

  function Outstanding(s: State): int { |s.accepted| - |s.wire| }

  // Device-owned descriptors are the segment from dma to Tail, holding the accepted frames
  // that have not left, in order.
  ghost predicate Queued(s: State)
    requires WellShaped(s)
  {
    var k := Outstanding(s);
    && 0 <= k <= RING && s.wire == s.accepted[..|s.wire|]
    && (if k == RING then Tail(s) == s.dma else Dist(Tail(s), s.dma, RING) == k)
    && forall i {:trigger s.ring[i]} :: 0 <= i < RING ==>
         && (!s.ring[i].own <==> Dist(i, s.dma, RING) < k)
         && (!s.ring[i].own ==>
               s.ring[i].length <= BUFFER && s.ring[i].buf[..s.ring[i].length] ==
                 s.accepted[|s.wire| + Dist(i, s.dma, RING)])
  }

  // A call that has passed the test owns the descriptor it works on.
  ghost predicate Working(s: State)
    requires WellShaped(s)
  {
    var d := s.ring[s.cur];
    && (s.pc.Fill? || s.pc.Pad? || s.pc.Give? ==> d.own)
    && (s.pc.Pad? ==> d.buf[..|s.pc.f|] == s.pc.f)
    && (s.pc.Give? ==> d.length <= BUFFER && d.buf[..d.length] == Padded(s.pc.f))
  }

  // A stopped engine has nothing to send, or the call under way is about to start it.
  predicate Awake(s: State)
    requires WellShaped(s)
  {
    s.running || s.ring[s.dma].own || s.pc == Wake
  }

  ghost predicate Inv(s: State) { WellShaped(s) && Queued(s) && Working(s) && Awake(s) }

  lemma InitInv(s: State)
    requires Init(s)
    ensures Inv(s)
  {
  }

  // The descriptor under work belongs to the CPU exactly while there is room.
  lemma TestIsRoom(s: State)
    requires Inv(s) && s.pc != Advance && s.pc != Wake
    ensures s.ring[s.cur].own <==> Outstanding(s) < RING
  {
    SuccDist(s.cur, s.dma, RING);
  }

  lemma CopyKeeps(s: State)
    requires Inv(s) && (s.pc.Fill? || s.pc.Pad?)
    ensures Inv(CpuStep(s))
  {
    var d, d' := s.ring[s.cur], CpuStep(s).ring[s.cur];
    if s.pc.Pad? { MeasuredIsPadded(d, s.pc.f); }
  }

  lemma MeasuredIsPadded(d: Desc, f: Frame)
    requires |d.buf| == BUFFER && |f| <= BUFFER && d.buf[..|f|] == f
    ensures var m := Measured(d, |f|);
            |m.buf| == BUFFER && m.own == d.own && m.length <= BUFFER && m.buf[..m.length] == Padded(f)
  {
  }

  lemma GiveKeeps(s: State)
    requires Inv(s) && s.pc.Give?
    ensures Inv(CpuStep(s))
  {
    hide Padded, Dist, Succ;
    var s', k := CpuStep(s), Outstanding(s);
    TestIsRoom(s);
    SuccDist(s.cur, s.dma, RING);
    assert s'.wire == s'.accepted[..|s'.wire|];
    forall i | 0 <= i < RING
      ensures (!s'.ring[i].own <==> Dist(i, s.dma, RING) < k + 1)
      ensures !s'.ring[i].own ==>
                s'.ring[i].length <= BUFFER
                && s'.ring[i].buf[..s'.ring[i].length] == s'.accepted[|s.wire| + Dist(i, s.dma, RING)]
    {
      SuccDist(i, s.dma, RING);
      if i != s.cur && Dist(i, s.dma, RING) == k { DistUnique(i, s.cur, s.dma, RING); }
    }
  }

  lemma DmaKeeps(s: State)
    requires Inv(s)
    ensures Inv(DmaStep(s))
  {
    hide Padded, Dist, Succ;
    var s', k := DmaStep(s), Outstanding(s);
    if s.running && !s.ring[s.dma].own && s.ring[s.dma].length <= |s.ring[s.dma].buf| {
      SuccDist(s.dma, s.dma, RING);
      SuccDist(s.cur, s.dma, RING);
      SuccDist(Tail(s), s.dma, RING);
      assert s'.wire == s'.accepted[..|s'.wire|];
      forall i | 0 <= i < RING
        ensures (!s'.ring[i].own <==> Dist(i, s'.dma, RING) < k - 1)
        ensures !s'.ring[i].own ==>
                  s'.ring[i].length <= BUFFER
                  && s'.ring[i].buf[..s'.ring[i].length] == s'.accepted[|s'.wire| + Dist(i, s'.dma, RING)]
      {
        SuccDist(i, s.dma, RING);
      }
    }
  }

  // Every step of the driver or of the engine keeps the invariant.
  lemma NextKeeps(s: State, step: Step)
    requires Inv(s)
    ensures Inv(Next(s, step))
  {
    hide Padded;
    match step
    case Call(f) =>
    case Dma => DmaKeeps(s);
    case Cpu =>
      if s.pc.Fill? || s.pc.Pad? {
        CopyKeeps(s);
      } else if s.pc.Give? {
        GiveKeeps(s);
      }
  }

  // ---- every run ----

  // Any interleaving of calls, driver steps and completions.
  function Run(s: State, steps: seq<Step>): (r: State)
    requires WellShaped(s)
    ensures WellShaped(r)
  {
    if steps == [] then s else Next(Run(s, steps[..|steps| - 1]), steps[|steps| - 1])
  }

  lemma {:induction false} RunInv(s: State, steps: seq<Step>)
    requires Init(s)
    ensures Inv(Run(s, steps))
  {
    hide Inv, Next;
    if steps == [] {
      InitInv(s);
    } else {
      RunInv(s, steps[..|steps| - 1]);
      NextKeeps(Run(s, steps[..|steps| - 1]), steps[|steps| - 1]);
    }
  }

  // In every reachable state the frames on the wire are the first accepted ones, at most a
  // ring's worth is under way, and the device owns exactly the descriptors from dma on that
  // hold those.
  lemma RunSafe(s: State, steps: seq<Step>)
    requires Init(s)
    ensures var r := Run(s, steps);
            && |r.wire| <= |r.accepted| <= |r.wire| + RING && r.wire == r.accepted[..|r.wire|]
            && forall i :: 0 <= i < RING ==> (!r.ring[i].own <==> Dist(i, r.dma, RING) < |r.accepted| - |r.wire|)
  {
    RunInv(s, steps);
  }

  // ---- nothing is left behind ----

  // In every run: while a frame is outstanding the engine runs, or the call that is under way is about to start it.
  lemma NeverAsleep(s: State, steps: seq<Step>)
    requires Init(s)
    ensures var r := Run(s, steps); Outstanding(r) > 0 ==> r.running || r.pc == Wake
  {
    RunInv(s, steps);
    var r := Run(s, steps);
    SuccDist(r.dma, r.dma, RING);
  }

  // Between calls, as many steps of the engine as frames are outstanding put them all on the wire.
  lemma {:induction false} Drains(s: State, k: nat)
    requires Inv(s) && s.pc == Idle && Outstanding(s) == k
    ensures Run(s, seq(k, _ => Dma)).wire == s.accepted && Run(s, seq(k, _ => Dma)).accepted == s.accepted
    decreases k
  {
    hide Padded, Succ, Dist, Queued, Working;
    if k == 0 {
      AllSent(s);
    } else {
      Sends(s);
      Drains(DmaStep(s), k - 1);
      FirstStep(s, k);
    }
  }

  lemma AllSent(s: State)
    requires Inv(s) && Outstanding(s) == 0
    ensures s.wire == s.accepted && seq(0, _ => Dma) == []
  {
  }

  lemma Sends(s: State)
    requires Inv(s) && s.pc == Idle && Outstanding(s) > 0
    ensures var r := DmaStep(s);
            Inv(r) && r.pc == Idle && r.accepted == s.accepted && Outstanding(r) == Outstanding(s) - 1
  {
    hide Padded, Succ;
    DmaKeeps(s);
    SuccDist(s.dma, s.dma, RING);
    assert !s.ring[s.dma].own;
  }

  lemma {:induction false} FirstStep(s: State, k: nat)
    requires WellShaped(s) && k > 0
    ensures Run(s, seq(k, _ => Dma)) == Run(Next(s, Dma), seq(k - 1, _ => Dma))
    decreases k
  {
    hide Next;
    var d, e := seq(k, _ => Dma), seq(k - 1, _ => Dma);
    assert d[..k - 1] == e;
    if k > 1 {
      FirstStep(s, k - 1);
      assert e[..k - 2] == seq(k - 2, _ => Dma);
    } else {
      assert e == [];
    }
  }

  // ---- what a call comes to ----

  // The accepted frames together with the one being handed over.
  function Promised(s: State): seq<Frame>
  {
    if s.pc.Fill? || s.pc.Pad? || s.pc.Give? then s.accepted + [Padded(s.pc.f)] else s.accepted
  }

  // A frame is taken or refused at the test and nowhere else: it is refused exactly when all
  // descriptors are outstanding.
  lemma TakenAtTest(s: State, step: Step)
    requires Inv(s)
    ensures var s' := Next(s, step);
            var test := step == Cpu && s.pc.Test?;
            && Promised(s') == Promised(s) + (if test && Outstanding(s) < RING then [Padded(s.pc.f)] else [])
            && s'.refused == s.refused + if test && Outstanding(s) == RING then 1 else 0
  {
    hide Padded, Measured, Copied;
    if s.pc.Test? { TestIsRoom(s); }
  }

  // ---- the driver ----

  class TxRing {
    var ring: seq<Desc>      // descriptors and buffers
    var cur: nat             // txring.cur_index
    var dma: nat
    var running: bool
    ghost var pc: Pc
    ghost var wire: seq<Frame>
    ghost var accepted: seq<Frame>
    ghost var refused: nat

    ghost function S(): State
      reads this
    {
      State(ring, cur, dma, running, pc, wire, accepted, refused)
    }

    // star_nic_buffer_alloc: the buffers, every descriptor owned by the CPU.
    constructor ()
      ensures Init(S()) && refused == 0
    {
      ring := seq(RING, _ => Desc(true, BUFFER, seq(BUFFER, _ => 0)));
      cur, dma, running, pc, wire, accepted, refused := 0, 0, false, Idle, [], [], 0;
    }

    // The engine runs for a while.
    method Engine()
      requires Inv(S())
      modifies this
      ensures Inv(S()) && pc == old(pc) && cur == old(cur) && accepted == old(accepted) && refused == old(refused)
      ensures Promised(S()) == old(Promised(S()))
    {
      hide Inv, Padded;
      var n: nat := *;
      Shape(S());
      while n > 0
        invariant Inv(S()) && pc == old(pc) && cur == old(cur) && accepted == old(accepted) && refused == old(refused)
        invariant WellShaped(S())
      {
        var d := ring[dma];
        DmaKeeps(S());
        ghost var s' := DmaStep(S());
        if running && d.own && d.length <= |d.buf| {
          running := false;
        } else if running && d.length <= |d.buf| {
          wire := wire + [d.buf[..d.length]];
          ring := ring[dma := d.(own := true)];
          dma := Succ(dma, RING);
        }
        assert S() == s';
        Shape(S());
        n := n - 1;
      }
    }

    // send_frame, with the engine running between any two of its steps; at is the state it
    // tested.
    method SendFrame(data: Frame) returns (r: nat, ghost at: State)
      requires Inv(S()) && pc == Idle && |data| <= BUFFER
      modifies this
      ensures Inv(S()) && pc == Idle && Inv(at)
      ensures r == (if Outstanding(at) == RING then 1 else 0)
      ensures accepted == old(accepted) + if r == 0 then [Padded(data)] else []
      ensures refused == old(refused) + r
    {
      hide Inv, WellShaped, Padded, Measured, Copied, Promised;
      Begin(S(), data);
      pc := Test(data);
      Engine();
      at := S();
      Shape(at);
      After(at);
      if !ring[cur].own {
        pc, refused := Idle, refused + 1;
        assert S() == CpuStep(at);
        return 1, at;
      }
      pc := Fill(data);
      assert S() == CpuStep(at);
      Engine();
      FillBuffer(data);
      HandOver(data);
      return 0, at;
    }

    // star_nic.c:2163-2179: the data, the length and the padding.
    method FillBuffer(data: Frame)
      requires Inv(S()) && pc == Fill(data)
      modifies this
      ensures Inv(S()) && pc == Give(data) && accepted == old(accepted) && refused == old(refused)
    {
      hide Inv, WellShaped, Padded, Measured, Copied, Promised;
      ghost var s := S();
      Shape(s);
      After(s);
      ring := ring[cur := ring[cur].(buf := Copied(ring[cur].buf, data))];
      pc := Pad(data);
      assert S() == CpuStep(s);
      Engine();
      s := S();
      Shape(s);
      After(s);
      ring := ring[cur := Measured(ring[cur], |data|)];
      pc := Give(data);
      assert S() == CpuStep(s);
      Engine();
    }

    // star_nic.c:2184-2192: the descriptor goes to the device, the index moves on.
    method HandOver(data: Frame)
      requires Inv(S()) && pc == Give(data)
      modifies this
      ensures Inv(S()) && pc == Idle && accepted == old(accepted) + [Padded(data)] && refused == old(refused)
    {
      hide Inv, WellShaped, Padded, Measured, Copied, Promised;
      ghost var s := S();
      Shape(s);
      After(s);
      ring := ring[cur := ring[cur].(own := false)];
      pc, accepted := Wake, accepted + [Padded(data)];
      assert S() == CpuStep(s);
      Engine();
      s := S();
      Shape(s);
      After(s);
      running, pc := true, Advance;      // HAL_NIC_TX_DMA_START
      assert S() == CpuStep(s);
      Engine();
      s := S();
      Shape(s);
      After(s);
      if cur == RING - 1 { cur := 0; } else { cur := cur + 1; }
      pc := Idle;
      assert S() == CpuStep(s);
    }
  }

  lemma Shape(s: State)
    requires Inv(s)
    ensures WellShaped(s) && |s.ring| == RING && s.cur < RING && s.dma < RING
    ensures |s.ring[s.cur].buf| == |s.ring[s.dma].buf| == BUFFER
  {
  }

  lemma Begin(s: State, f: Frame)
    requires Inv(s) && s.pc == Idle && |f| <= BUFFER
    ensures Inv(s.(pc := Test(f)))
  {
    NextKeeps(s, Call(f));
  }

  // What the driver's next step does, in one place.
  lemma After(s: State)
    requires Inv(s)
    ensures WellShaped(s) && Inv(CpuStep(s))
    ensures s.pc.Test? ==> (s.ring[s.cur].own <==> Outstanding(s) < RING) && Outstanding(s) <= RING
  {
    hide Padded, Measured, Copied;
    NextKeeps(s, Cpu);
    if s.pc.Test? { TestIsRoom(s); }
  }
}
