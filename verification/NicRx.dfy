// The receive ring of apps/mac/star_nic.c: star_nic_receive_packet against a DMA engine
// that goes on depositing frames.
module NicRx {
  import opened Bits
  import opened RingIndex

  const RING: nat := 32              // STAR_NIC_MAX_RFD_NUM

  type Frame = seq<byte>

  // A descriptor with its buffer; filled is cown != 0.
  datatype Slot = Slot(filled: bool, frame: Frame)

  // cur is rxring.cur_index, sd the descriptor the engine fills next (RXSD).  Deposits are
  // numbered; deposit n goes to descriptor n mod 32.  delivered lists the frames LanRecv got, in
  // the order it got them, and order their numbers.  held: the frame at cur is delivered, its
  // descriptor not yet returned.
  datatype State = State(ring: seq<Slot>, cur: nat, sd: nat, held: bool, running: bool,
                         deposited: seq<Frame>, delivered: seq<Frame>, order: seq<int>)

  predicate Shaped(s: State) { |s.ring| == RING && s.cur < RING && s.sd < RING }

  // The last of d deposits that went to descriptor i; negative when there is none.
  function Latest(d: nat, i: nat): int { d - 1 - (d - 1 - i) % RING }

  lemma LatestIs(d: nat, i: nat)
    requires i < RING
    ensures d - RING <= Latest(d, i) < d && Latest(d, i) % RING == i
    ensures forall n: int {:trigger n % RING} :: d - RING <= n < d && n % RING == i ==> n == Latest(d, i)
    ensures Latest(d + 1, i) == if i == d % RING then d else Latest(d, i)
  {
    LatestRange(d, i);
    LatestRange(d + 1, i);
    hide Latest;
    forall n: int | d - RING <= n < d && n % RING == i ensures n == Latest(d, i) { SameResidue(n, Latest(d, i)); }
    SameResidue(d, Latest(d + 1, i));
    SameResidue(Latest(d, i), Latest(d + 1, i));
  }

  lemma LatestRange(d: nat, i: nat)
    requires i < RING
    ensures d - RING <= Latest(d, i) < d && Latest(d, i) % RING == i
  {
  }

  // Numbers less than 32 apart with the same remainder are the same.
  lemma SameResidue(m: int, n: int)
    ensures m % RING == n % RING && m - n < RING && n - m < RING ==> m == n
    ensures m - n == RING ==> m % RING == n % RING
  {
  }

  // Deposit n waits for delivery.
  predicate Pending(s: State, n: nat)
    requires |s.ring| == RING
  {
    |s.deposited| - RING <= n < |s.deposited| && s.ring[n % RING].filled && !(s.held && n % RING == s.cur)
  }

  // Every deposit is waiting in its descriptor or has been delivered, and none twice.
  ghost predicate Inv(s: State)
  {
    && |s.ring| == RING && s.cur < RING && s.sd == |s.deposited| % RING && (s.held ==> s.ring[s.cur].filled)
    && (forall i {:trigger s.ring[i]} :: 0 <= i < RING && s.ring[i].filled ==>
          var n := Latest(|s.deposited|, i); n >= 0 && s.ring[i].frame == s.deposited[n])
    && |s.delivered| == |s.order|
    && (forall j :: 0 <= j < |s.order| ==>
          0 <= s.order[j] < |s.deposited| && s.delivered[j] == s.deposited[s.order[j]])
    && (forall i, j :: 0 <= i < j < |s.order| ==> s.order[i] != s.order[j])
    && (forall n: nat :: n < |s.deposited| ==> (n in s.order <==> !Pending(s, n)))
  }

  // Between passes.
  ghost predicate Resting(s: State) { Inv(s) && !s.held }

  // Frames were delivered in the order of arrival.
  ghost predicate InOrder(s: State) { forall j :: 0 <= j < |s.order| ==> s.order[j] == j }

  function Waiting(s: State): int { |s.deposited| - |s.order| }

  // How many descriptors the driver stands behind the first frame it has not delivered.
  function Lag(s: State): (n: nat)
    ensures n < RING
  {
    (|s.order| - s.cur) % RING
  }

  // The driver has delivered in order and stands at the right descriptor.
  ghost predicate Ready(s: State) { Resting(s) && InOrder(s) && Lag(s) == 0 }

  // ---- the steps ----

  // The engine deposits a frame, or stops when the next descriptor is still full.
  function Deposit(s: State, f: Frame): (r: State)
    requires Shaped(s)
    ensures Shaped(r) && r.cur == s.cur
  {
    if !s.running then s
    else if s.ring[s.sd].filled then s.(running := false)
    else s.(ring := s.ring[s.sd := Slot(true, f)], sd := Succ(s.sd, RING), deposited := s.deposited + [f])
  }

  // Some deposits, one after the other.
  function Deposits(s: State, fs: seq<Frame>): (r: State)
    requires Shaped(s)
    ensures Shaped(r) && r.cur == s.cur
    decreases |fs|
  {
    if fs == [] then s else Deposits(Deposit(s, fs[0]), fs[1..])
  }

  // LanRecv gets the frame at cur.
  function Hand(s: State): State
    requires Shaped(s)
  {
    s.(delivered := s.delivered + [s.ring[s.cur].frame], order := s.order + [Latest(|s.deposited|, s.cur)], held :=
      true)
  }

  // The descriptor at cur goes back to the engine.
  function GiveBack(s: State): State
    requires Shaped(s)
  {
    s.(ring := s.ring[s.cur := s.ring[s.cur].(filled := false)], held := false)
  }

  function Advance(s: State): State { s.(cur := Succ(s.cur, RING)) }

  // One turn of the loop (star_nic.c:1751-1792), with the deposits a between the delivery and the
  // return of the descriptor and b before the next turn.
  function TurnOf(s: State, a: seq<Frame>, b: seq<Frame>): (r: State)
    requires Shaped(s)
    ensures Shaped(r)
  {
    Advance(Deposits(if s.ring[s.cur].filled then GiveBack(Deposits(Hand(s), a)) else s, b))
  }

  // What the engine tries to deposit at each point of a pass: 0 is before RXSD is read, 1 before
  // the ownership bit is, 2i + 2 and 2i + 3 are in turn i.
  type Schedule = nat -> seq<Frame>

  // The state after i turns.
  function Turns(s: State, env: Schedule, i: nat): (r: State)
    requires Shaped(s)
    ensures Shaped(r)
  {
    if i == 0 then s else TurnOf(Turns(s, env, i - 1), env(2 * i), env(2 * i + 1))
  }

  // When RXSD is read, and when the ownership bit is.
  function AtFirst(s: State, env: Schedule): (r: State)
    requires Shaped(s)
    ensures Shaped(r) && r.cur == s.cur
  {
    Deposits(s, env(0))
  }

  function AtSecond(s: State, env: Schedule): (r: State)
    requires Shaped(s)
    ensures Shaped(r) && r.cur == s.cur
  {
    Deposits(AtFirst(s, env), env(1))
  }

  function Least(a: int, b: int): nat { if a <= 0 || b <= 0 then 0 else if a <= b then a else b }

  function Ahead(c: nat, i: nat): int { if i > c then i - c else RING - c + i }

  // The number of turns.
  function TurnCount(mode: int, workToDo: int, cur: nat, rxsd: nat): nat
    requires cur < RING && rxsd < RING
  {
    if mode == 1 then RING else Least(workToDo, if rxsd == cur then RING else Ahead(cur, rxsd))
  }

  // Everything a pass does.
  function PassOf(s: State, mode: int, workToDo: int, env: Schedule): (r: State)
    requires Shaped(s)
    ensures Shaped(r)
  {
    var rxsd, u := AtFirst(s, env).sd, AtSecond(s, env);
    if rxsd == u.cur && !u.ring[u.cur].filled then u
    else
      var v := Turns(u, env, TurnCount(mode, workToDo, u.cur, rxsd));
      if mode == 1 || rxsd == u.cur then v.(cur := rxsd, running := true) else v
  }

  // ---- what every step keeps ----

  lemma ModSucc(d: nat)
    ensures Succ(d % RING, RING) == (d + 1) % RING
  {
  }

  lemma DepositKeeps(s: State, f: Frame)
    requires Inv(s)
    ensures Inv(Deposit(s, f)) && (forall i :: 0 <= i < RING && s.ring[i].filled ==> Deposit(s, f).ring[i] == s.ring[i])
  {
    hide Latest;
    var s', d := Deposit(s, f), |s.deposited|;
    if s.running && !s.ring[s.sd].filled {
      ModSucc(d);
      forall i | 0 <= i < RING && s'.ring[i].filled
        ensures var n := Latest(d + 1, i); 0 <= n <= d && s'.ring[i].frame == s'.deposited[n]
      {
        LatestIs(d, i);
      }
      forall n: nat | n < d + 1 ensures n in s'.order <==> !Pending(s', n) { DepositPending(s, f, n); }
    }
  }

  // A deposit changes what is pending by itself alone.
  lemma DepositPending(s: State, f: Frame, n: nat)
    requires Inv(s) && s.running && !s.ring[s.sd].filled && n <= |s.deposited|
    ensures n in Deposit(s, f).order <==> !Pending(Deposit(s, f), n)
  {
    hide Latest;
    var d := |s.deposited|;
    if n < d { SlotsApart(d, n); }
  }

  // The next deposit takes the descriptor of the one 32 before it, and of no other.
  lemma SlotsApart(d: nat, n: nat)
    requires n < d
    ensures d - RING < n ==> n % RING != d % RING
  {
  }

  lemma HandKeeps(s: State)
    requires Inv(s) && !s.held && s.ring[s.cur].filled
    ensures Shaped(s) && Inv(Hand(s))
  {
    hide Latest;
    var d := |s.deposited|;
    LatestIs(d, s.cur);
    var n0, s' := Latest(d, s.cur), Hand(s);
    assert Pending(s, n0);
    forall n: nat | n < d ensures n in s'.order <==> !Pending(s', n) {
      if n in s'.order && n != n0 { assert n in s.order; }
      if n in s.order { assert n in s'.order; }
      if n == n0 { assert s'.order[|s.order|] == n0; }
    }
  }

  lemma GiveBackKeeps(s: State)
    requires Inv(s) && s.held
    ensures Inv(GiveBack(s))
  {
    hide Latest;
    var s' := GiveBack(s);
    forall n: nat | n < |s.deposited| ensures Pending(s', n) <==> Pending(s, n) {
    }
    forall n: nat | n < |s.deposited| ensures n in s'.order <==> !Pending(s', n) {
    }
  }

  lemma AdvanceKeeps(s: State)
    requires Inv(s) && !s.held
    ensures Inv(Advance(s))
  {
    hide Latest;
    var s' := Advance(s);
    SuccDist(s.cur, s.cur, RING);
    forall n: nat | n < |s.deposited| ensures n in s'.order <==> !Pending(s', n) {
      assert Pending(s', n) <==> Pending(s, n);
    }
  }

  // While the order is kept, the waiting deposits are the ones after those delivered.
  lemma HeadOf(s: State, i: nat)
    requires Resting(s) && InOrder(s) && i < RING
    ensures 0 <= Waiting(s) <= RING && (s.ring[i].filled <==> Latest(|s.deposited|, i) >= |s.order|)
  {
    hide Latest;
    var m, d := |s.order|, |s.deposited|;
    if m > 0 { assert s.order[m - 1] == m - 1; }
    forall n: nat | n < d ensures n in s.order <==> n < m {
      if n < m { assert s.order[n] == n; }
    }
    if m < d { assert Pending(s, m); }
    LatestIs(d, i);
    if s.ring[i].filled || Latest(d, i) >= m { assert s.ring[i].filled <==> Pending(s, Latest(d, i)); }
  }

  lemma Shape(s: State)
    requires Inv(s)
    ensures Shaped(s) && s.sd == |s.deposited| % RING
  {
  }

  lemma {:induction false} DepositsKeep(s: State, fs: seq<Frame>)
    requires Inv(s)
    ensures Shaped(s)
    ensures var r := Deposits(s, fs);
            && Inv(r) && r.held == s.held && r.order == s.order && r.delivered == s.delivered
               && s.deposited <= r.deposited
            && (forall i :: 0 <= i < RING && s.ring[i].filled ==> r.ring[i] == s.ring[i])
            && (!s.running ==> r == s)
    decreases |fs|
  {
    hide Inv;
    Shape(s);
    if fs != [] {
      DepositKeeps(s, fs[0]);
      DepositsKeep(Deposit(s, fs[0]), fs[1..]);
    }
  }

  lemma TurnKeeps(s: State, a: seq<Frame>, b: seq<Frame>)
    requires Resting(s)
    ensures Shaped(s)
    ensures var r := TurnOf(s, a, b);
            && Resting(r) && r.cur == Succ(s.cur, RING) && s.deposited <= r.deposited && s.delivered <= r.delivered
            && r.order == s.order + (if s.ring[s.cur].filled then [Latest(|s.deposited|, s.cur)] else [])
            && (!s.running ==> !r.running && r.deposited == s.deposited)
  {
    hide Inv, Latest, Succ, Deposits;
    Shape(s);
    var t := s;
    if s.ring[s.cur].filled {
      HandKeeps(s);
      DepositsKeep(Hand(s), a);
      Shape(Deposits(Hand(s), a));
      GiveBackKeeps(Deposits(Hand(s), a));
      t := GiveBack(Deposits(Hand(s), a));
      Shape(t);
    }
    DepositsKeep(t, b);
    AdvanceKeeps(Deposits(t, b));
  }

  lemma {:induction false} TurnsKeep(s: State, env: Schedule, i: nat)
    requires Resting(s)
    ensures Shaped(s)
    ensures var r := Turns(s, env, i);
            && Resting(r) && r.cur == (s.cur + i) % RING && s.deposited <= r.deposited && s.delivered <= r.delivered
            && s.order <= r.order && |r.order| <= |s.order| + i
            && (!s.running ==> !r.running && r.deposited == s.deposited)
  {
    hide Inv, TurnOf, Succ;
    Shape(s);
    if i > 0 {
      TurnsKeep(s, env, i - 1);
      TurnKeeps(Turns(s, env, i - 1), env(2 * i), env(2 * i + 1));
      NextIndex(s.cur, i - 1);
    }
  }

  lemma NextIndex(c: nat, i: nat)
    ensures Succ((c + i) % RING, RING) == (c + i + 1) % RING
  {
  }

  // Where the driver stands and whether the engine runs do not matter between deliveries.
  lemma MovedKeeps(s: State, c: nat)
    requires c < RING && Resting(s)
    ensures Resting(s.(cur := c, running := true))
  {
    hide Latest;
    var s' := s.(cur := c, running := true);
    forall n: nat | n < |s.deposited| ensures n in s'.order <==> !Pending(s', n) {
      assert Pending(s', n) <==> Pending(s, n);
    }
  }

  // What the state is at the two reads.
  lemma ReadsKeep(s: State, env: Schedule)
    requires Resting(s)
    ensures Shaped(s)
    ensures var t, u := AtFirst(s, env), AtSecond(s, env);
            && Resting(t) && Resting(u) && s.order == t.order == u.order && s.deposited <= t.deposited <= u.deposited
            && s.delivered == u.delivered && (!s.running ==> t == u == s)
  {
    hide Inv, Deposits;
    Shape(s);
    DepositsKeep(s, env(0));
    DepositsKeep(AtFirst(s, env), env(1));
  }

  // No pass loses a frame or delivers one twice, whatever the state it starts in.
  lemma PassKeeps(s: State, mode: int, workToDo: int, env: Schedule)
    requires Resting(s)
    ensures Shaped(s)
    ensures var r := PassOf(s, mode, workToDo, env);
            Resting(r) && s.deposited <= r.deposited && s.order <= r.order && s.delivered <= r.delivered
  {
    hide Resting, AtFirst, AtSecond, Turns, TurnCount;
    ReadsKeep(s, env);
    var rxsd, u := AtFirst(s, env).sd, AtSecond(s, env);
    var n := TurnCount(mode, workToDo, u.cur, rxsd);
    TurnsKeep(u, env, n);
    MovedKeeps(Turns(u, env, n), rxsd);
  }

  // ---- passes one after the other ----

  datatype Call = Call(mode: int, workToDo: int, env: Schedule)

  function Serve(s: State, calls: seq<Call>): (r: State)
    requires Shaped(s)
    ensures Shaped(r)
  {
    if |calls| == 0 then s
    else var c := calls[|calls| - 1]; PassOf(Serve(s, calls[..|calls| - 1]), c.mode, c.workToDo, c.env)
  }

  const Start: State := State(seq(RING, _ => Slot(false, [])), 0, 0, false, true, [], [], [])

  lemma StartReady()
    ensures Ready(Start)
  {
  }

  // Over every run of passes from the start, each deposit has been delivered once or is waiting.
  lemma {:induction false} ExactlyOnce(calls: seq<Call>)
    ensures Resting(Serve(Start, calls))
  {
    hide Resting, PassOf;
    if |calls| == 0 {
      StartReady();
    } else {
      var c := calls[|calls| - 1];
      ExactlyOnce(calls[..|calls| - 1]);
      PassKeeps(Serve(Start, calls[..|calls| - 1]), c.mode, c.workToDo, c.env);
    }
  }

  // ---- order ----

  // The engine has filled the descriptor of a driver that stands behind: its frame came after
  // the first one not delivered.
  predicate Lapped(s: State) { Lag(s) > 0 && Waiting(s) > RING - Lag(s) }

  // What the driver finds where it stands.
  lemma AtCur(s: State)
    requires Resting(s) && InOrder(s)
    ensures Shaped(s) && 0 <= Waiting(s) <= RING
    ensures s.ring[s.cur].filled <==> Lapped(s) || (Lag(s) == 0 && Waiting(s) > 0)
    ensures Lapped(s) ==> Latest(|s.deposited|, s.cur) > |s.order|
    ensures Lag(s) == 0 && Waiting(s) > 0 ==> Latest(|s.deposited|, s.cur) == |s.order|
  {
    hide Inv, InOrder, Latest, Lag;
    Shape(s);
    HeadOf(s, s.cur);
    LagIs(s);
    LatestIs(|s.deposited|, s.cur);
    var m, n := |s.order|, Lag(s);
    var p: int := m - n;
    SameResidue(p + RING, p);
    if n == 0 { SameResidue(p, p - RING); }
  }

  lemma LagIs(s: State)
    requires s.cur < RING
    ensures 0 <= Lag(s) < RING && (|s.order| - Lag(s)) % RING == s.cur
    ensures forall n: nat {:trigger (|s.order| - n) % RING} :: n < RING && (|s.order| - n) % RING == s.cur ==>
            n == Lag(s)
  {
  }

  // What a turn does to the order and the lag.
  lemma TurnLag(s: State, a: seq<Frame>, b: seq<Frame>)
    requires Resting(s) && InOrder(s)
    ensures Shaped(s) && 0 <= Waiting(s) <= RING
    ensures var r := TurnOf(s, a, b);
            && (InOrder(r) <==> !Lapped(s))
            && (!Lapped(s) && Lag(s) > 0 ==> r.order == s.order && Lag(r) == Lag(s) - 1)
            && (Lag(s) == 0 < Waiting(s) ==> |r.order| == |s.order| + 1 && Lag(r) == 0)
            && (Lag(s) == 0 == Waiting(s) ==> r.order == s.order && Lag(r) == RING - 1)
  {
    hide Inv, Latest, TurnOf, Lag;
    AtCur(s);
    TurnKeeps(s, a, b);
    var r := TurnOf(s, a, b);
    StepLag(s, r);
    if s.ring[s.cur].filled { assert r.order[|s.order|] == Latest(|s.deposited|, s.cur); }
  }

  lemma StepLag(s: State, r: State)
    requires s.cur < RING && r.cur == Succ(s.cur, RING)
    ensures |r.order| == |s.order| ==> Lag(r) == if Lag(s) == 0 then RING - 1 else Lag(s) - 1
    ensures |r.order| == |s.order| + 1 ==> Lag(r) == Lag(s)
  {
  }

  // Frames delivered out of order stay so.
  lemma Lasting(s: State, r: State)
    requires s.order <= r.order && InOrder(r)
    ensures InOrder(s)
  {
    forall j | 0 <= j < |s.order| ensures s.order[j] == j { assert s.order[j] == r.order[j]; }
  }

  // A run of turns keeps the order exactly when none of them starts lapped.
  lemma {:induction false} OrderIff(s: State, env: Schedule, i: nat)
    requires Resting(s) && InOrder(s)
    ensures Shaped(s) && (InOrder(Turns(s, env, i)) <==> forall j: nat :: j < i ==> !Lapped(Turns(s, env, j)))
  {
    hide Inv, InOrder, TurnOf, Lag, Lapped;
    Shape(s);
    if i > 0 {
      OrderIff(s, env, i - 1);
      var t := Turns(s, env, i - 1);
      TurnsKeep(s, env, i - 1);
      TurnKeeps(t, env(2 * i), env(2 * i + 1));
      if InOrder(t) { TurnLag(t, env(2 * i), env(2 * i + 1)); }
      else if InOrder(Turns(s, env, i)) { Lasting(t, Turns(s, env, i)); }
    }
  }

  // Turns over the descriptors up to the waiting frames and over these frames.  A driver that
  // stands behind must not be lapped meanwhile.
  lemma {:induction false} Swept(s: State, env: Schedule, i: nat)
    requires Resting(s) && InOrder(s) && i <= Lag(s) + Waiting(s)
    requires Shaped(s) && (Lag(s) == 0 || |Turns(s, env, i).deposited| <= |s.order| + RING - Lag(s))
    ensures var r, n := Turns(s, env, i), Lag(s);
            && Resting(r) && InOrder(r)
            && |r.order| == |s.order| + (if i <= n then 0 else i - n) && Lag(r) == if i <= n then n - i else 0
  {
    hide Inv, InOrder, TurnOf, Lag;
    if i > 0 {
      var t := Turns(s, env, i - 1);
      TurnsKeep(s, env, i - 1);
      TurnKeeps(t, env(2 * i), env(2 * i + 1));
      Swept(s, env, i - 1);
      TurnLag(t, env(2 * i), env(2 * i + 1));
    }
  }

  // With the engine halted, any number of further turns finds nothing.
  lemma {:induction false} Drained(s: State, env: Schedule, i: nat)
    requires Resting(s) && InOrder(s) && !s.running && Lag(s) + Waiting(s) <= RING && i >= Lag(s) + Waiting(s)
    ensures Shaped(s)
    ensures var r := Turns(s, env, i);
            Resting(r) && InOrder(r) && |r.order| == |s.deposited| && r.deposited == s.deposited
  {
    hide Inv, InOrder, TurnOf, Lag;
    AtCur(s);
    TurnsKeep(s, env, i);
    if i == Lag(s) + Waiting(s) {
      Swept(s, env, i);
    } else {
      var t := Turns(s, env, i - 1);
      Drained(s, env, i - 1);
      TurnLag(t, env(2 * i), env(2 * i + 1));
    }
  }

  // Frames waiting at the two reads.
  function First(s: State, env: Schedule): int
    requires Shaped(s)
  {
    Waiting(AtFirst(s, env))
  }

  function Second(s: State, env: Schedule): int
    requires Shaped(s)
  {
    Waiting(AtSecond(s, env))
  }

  // The distance the driver computes.
  lemma Distance(s: State)
    requires Resting(s) && InOrder(s)
    ensures Shaped(s) && 0 <= Waiting(s) <= RING
    ensures s.sd == s.cur <==> Lag(s) + Waiting(s) == 0 || Lag(s) + Waiting(s) == RING
    ensures s.sd != s.cur ==>
              Ahead(s.cur, s.sd) == Lag(s) + Waiting(s) - if Lag(s) + Waiting(s) < RING then 0 else RING
  {
    hide Inv, InOrder, Latest;
    AtCur(s);
    Shape(s);
    SdAhead(|s.order|, |s.deposited|, s.cur, s.sd, Lag(s));
  }

  lemma SdAhead(m: nat, d: nat, c: nat, e: nat, n: nat)
    requires c < RING && e == d % RING && n == (m - c) % RING && m <= d <= m + RING
    ensures e == c <==> n + d - m == 0 || n + d - m == RING
    ensures e != c ==> Ahead(c, e) == n + d - m - if n + d - m < RING then 0 else RING
  {
  }

  // Both reads see the same lag.
  lemma Reads(s: State, env: Schedule)
    requires Resting(s) && InOrder(s)
    ensures Shaped(s)
    ensures var t, u := AtFirst(s, env), AtSecond(s, env);
            && Resting(u) && InOrder(u) && u.order == t.order == s.order && Lag(u) == Lag(s) && u.cur == s.cur
            && 0 <= Waiting(s) <= First(s, env) <= Second(s, env) <= RING
            && (t.sd == s.cur <==> Lag(s) + First(s, env) == 0 || Lag(s) + First(s, env) == RING)
            && (t.sd != s.cur ==>
                  Ahead(s.cur, t.sd) == Lag(s) + First(s, env) - if Lag(s) + First(s, env) < RING then 0 else RING)
            && (u.ring[u.cur].filled <==> Lapped(u) || (Lag(s) == 0 && Second(s, env) > 0))
            && (!s.running ==> t == u == s) && s.deposited <= u.deposited && t.sd < RING
            && t.sd == |t.deposited| % RING
  {
    hide Inv, AtFirst, AtSecond, Ahead;
    ReadsKeep(s, env);
    var t, u := AtFirst(s, env), AtSecond(s, env);
    Distance(t);
    Shape(t);
    AtCur(u);
    AtCur(s);
  }

  // An empty ring taken for full.
  predicate Misread(mode: int, workToDo: int, k1: int, k2: int) { mode != 1 && k1 == 0 < k2 && workToDo > 0 }

  // What a pass does from a ready state that is not misread: the frames waiting at the first read
  // are delivered in order, as far as the limit allows.
  lemma ReadyPass(s: State, mode: int, workToDo: int, env: Schedule)
    requires Ready(s) && (mode == 1 ==> !s.running)
    ensures Shaped(s)
    ensures var r, k1 := PassOf(s, mode, workToDo, env), First(s, env);
            !Misread(mode, workToDo, k1, Second(s, env)) ==>
              && Resting(r) && InOrder(r) && |r.order| == |s.order| + (if mode == 1 then k1 else Least(workToDo, k1))
              && (Lag(r) == 0 <==> !(mode != 1 && k1 == RING && 0 < workToDo < RING))
              && (mode == 1 ==> r.deposited == s.deposited && (r.running <==> k1 > 0))
  {
    hide Inv, InOrder, AtFirst, AtSecond, Turns, Lag, Latest;
    Reads(s, env);
    var t, u, k1 := AtFirst(s, env), AtSecond(s, env), First(s, env);
    if !Misread(mode, workToDo, k1, Second(s, env)) && u.ring[u.cur].filled {
      var n := TurnCount(mode, workToDo, u.cur, t.sd);
      TurnsKeep(u, env, n);
      var v := Turns(u, env, n);
      if mode == 1 { Drained(u, env, n); } else { Swept(u, env, n); }
      MovedKeeps(v, t.sd);
      MovedOrder(v, t.sd);
      Landed(s, v, v.(cur := t.sd, running := true), k1);
    }
  }

  // The lag of a driver that moves to where k frames from m on end.
  lemma Landed(s: State, v: State, r: State, k: nat)
    requires Lag(s) == 0 && s.cur < RING && k <= RING && r.order == v.order
             && |s.order| <= |v.order| <= |s.order| + RING
    requires r.cur == (|s.order| + k) % RING
    ensures |r.order| == |s.order| + k ==> Lag(r) == 0
    ensures k == 0 || k == RING ==> (Lag(r) == 0 <==> |r.order| == |s.order| || |r.order| == |s.order| + RING)
  {
  }

  // A misread pass ends where it started, so at the wrong descriptor unless it delivered 32
  // frames.  With a limit of one or two it still keeps the order.
  lemma MisreadPass(s: State, mode: int, workToDo: int, env: Schedule)
    requires Ready(s)
    ensures Shaped(s)
    ensures var r := PassOf(s, mode, workToDo, env);
            Misread(mode, workToDo, First(s, env), Second(s, env)) ==>
              && r.cur == s.cur && |s.order| < |r.order| <= |s.order| + Least(workToDo, RING)
              && (Ready(r) <==> |r.order| == |s.order| + RING) && (workToDo < 3 ==> InOrder(r))
  {
    hide Inv, InOrder, AtFirst, AtSecond, Turns, Lag, Latest;
    Reads(s, env);
    var t, u := AtFirst(s, env), AtSecond(s, env);
    if Misread(mode, workToDo, First(s, env), Second(s, env)) {
      var n := Least(workToDo, RING);
      TurnsKeep(u, env, n);
      var v := Turns(u, env, n);
      FirstTurn(u, env, n);
      EveryTurn(u, env, n);
      MovedKeeps(v, t.sd);
      MovedOrder(v, t.sd);
      SdIsCur(s);
      Landed(s, v, v.(cur := t.sd, running := true), 0);
    }
  }

  lemma SdIsCur(s: State)
    requires s.cur < RING && Lag(s) == 0
    ensures s.cur == |s.order| % RING
  {
  }

  // Turns that begin at a waiting frame deliver it, and two of them cannot go wrong.
  lemma FirstTurn(u: State, env: Schedule, i: nat)
    requires Ready(u) && Waiting(u) > 0 && i > 0
    ensures Shaped(u) && |Turns(u, env, i).order| > |u.order|
    ensures i < 3 ==> InOrder(Turns(u, env, i))
    decreases i
  {
    hide Inv, InOrder, TurnOf, Lag;
    Shape(u);
    Swept(u, env, 1);
    if i > 1 {
      FirstTurn(u, env, i - 1);
      TurnsKeep(u, env, i - 1);
      TurnKeeps(Turns(u, env, i - 1), env(2 * i), env(2 * i + 1));
      if i == 2 { TurnLag(Turns(u, env, 1), env(4), env(5)); }
    }
  }

  // If every turn delivers, the order is kept.
  lemma {:induction false} EveryTurn(u: State, env: Schedule, i: nat)
    requires Ready(u)
    ensures Shaped(u)
    ensures |Turns(u, env, i).order| == |u.order| + i ==> InOrder(Turns(u, env, i)) && Lag(Turns(u, env, i)) == 0
  {
    hide Inv, InOrder, TurnOf, Lag;
    Shape(u);
    if i > 0 {
      var t := Turns(u, env, i - 1);
      TurnsKeep(u, env, i - 1);
      TurnKeeps(t, env(2 * i), env(2 * i + 1));
      EveryTurn(u, env, i - 1);
      if |Turns(u, env, i).order| == |u.order| + i { TurnLag(t, env(2 * i), env(2 * i + 1)); }
    }
  }

  // A pass that starts n > 0 descriptors behind.  With more than 32 - n frames waiting when it
  // begins it delivers out of order; with exactly that many it does nothing; with fewer it catches
  // up by as many descriptors as its limit allows and goes on with the waiting frames, if the
  // engine does not lap it meanwhile.
  lemma LagPass(s: State, mode: int, workToDo: int, env: Schedule)
    requires Resting(s) && InOrder(s) && Lag(s) > 0 && mode != 1
    ensures Shaped(s)
    ensures var r, m, n, k1 := PassOf(s, mode, workToDo, env), |s.order|, Lag(s), First(s, env);
            && (Second(s, env) > RING - n && workToDo > 0 ==> !InOrder(r))
            && (k1 == Second(s, env) == RING - n ==> r == AtSecond(s, env))
            && (n + k1 < RING && |r.deposited| <= m + RING - n ==>
                  var i := Least(workToDo, n + k1);
                  InOrder(r) && |r.order| == m + (if i <= n then 0 else i - n) && Lag(r) == if i <= n then n - i else 0)
  {
    hide Inv, InOrder, AtFirst, AtSecond, Turns, Lag, Latest;
    Reads(s, env);
    var t, u, n, k1 := AtFirst(s, env), AtSecond(s, env), Lag(s), First(s, env);
    var i := TurnCount(mode, workToDo, u.cur, t.sd);
    MovedOrder(Turns(u, env, i), t.sd);
    if Second(s, env) > RING - n && workToDo > 0 {
      OrderIff(u, env, i);
      NoTurns(u, env);
      assert Lapped(Turns(u, env, 0));
    }
    if n + k1 < RING && |PassOf(s, mode, workToDo, env).deposited| <= |s.order| + RING - n {
      Swept(u, env, i);
    }
  }

  lemma NoTurns(s: State, env: Schedule)
    requires Shaped(s)
    ensures Turns(s, env, 0) == s
  {
  }

  lemma NextTurn(s: State, env: Schedule, i: nat)
    requires Shaped(s)
    ensures Turns(s, env, i + 1) == TurnOf(Turns(s, env, i), env(2 * i + 2), env(2 * i + 3))
  {
  }

  // A queue-full pass that starts n descriptors behind with k frames waiting: it delivers them all
  // in order and realigns exactly when n + k < 32 or n = 0, except that it does nothing when the
  // ring looks empty.
  lemma FullPass(s: State, workToDo: int, env: Schedule)
    requires Resting(s) && InOrder(s) && !s.running
    ensures Shaped(s)
    ensures var r, n, k := PassOf(s, 1, workToDo, env), Lag(s), Waiting(s);
            && (n + k == 0 || (n > 0 && n + k == RING) ==> r == s)
            && (n > 0 && n + k > RING ==> !InOrder(r))
            && (0 < n + k < RING || (n == 0 && k == RING) ==>
                  Ready(r) && r.running && r.deposited == s.deposited && |r.order| == |s.deposited|)
  {
    hide Inv, InOrder, AtFirst, AtSecond, Turns, Lag, Latest;
    Reads(s, env);
    var n, k := Lag(s), Waiting(s);
    TurnsKeep(s, env, RING);
    var v := Turns(s, env, RING);
    var r := v.(cur := s.sd, running := true);
    MovedKeeps(v, s.sd);
    MovedOrder(v, s.sd);
    if n > 0 && n + k > RING {
      OrderIff(s, env, RING);
      NoTurns(s, env);
      assert Lapped(Turns(s, env, 0));
    } else if 0 < n + k < RING || (n == 0 && k == RING) {
      Drained(s, env, RING);
      AtEnd(r);
    }
  }

  lemma AtEnd(r: State)
    requires r.cur == |r.order| % RING
    ensures Lag(r) == 0
  {
  }

  // Runs of passes as the two callers make them, with a limit of 32 and mode 1 for a halted engine.
  predicate Clean(s: State, c: Call)
    requires Shaped(s)
  {
    && (c.mode == 1 ==> !s.running) && c.workToDo >= RING
    && !Misread(c.mode, c.workToDo, First(s, c.env), Second(s, c.env))
  }

  // Without misreads, what LanRecv has got over a whole run is what arrived, in order.
  lemma {:induction false} CleanRun(calls: seq<Call>)
    requires forall i :: 0 <= i < |calls| ==> Clean(Serve(Start, calls[..i]), calls[i])
    ensures Ready(Serve(Start, calls)) && Serve(Start, calls).delivered <= Serve(Start, calls).deposited
  {
    hide Ready, PassOf, First, Second;
    if |calls| == 0 {
      StartReady();
    } else {
      var n := |calls| - 1;
      var c := calls[n];
      forall i | 0 <= i < n ensures Clean(Serve(Start, calls[..n][..i]), calls[..n][i]) {
        assert calls[..n][..i] == calls[..i];
      }
      CleanRun(calls[..n]);
      CleanPass(Serve(Start, calls[..n]), c);
    }
    ReadyDelivers(Serve(Start, calls));
  }

  lemma CleanPass(s: State, c: Call)
    requires Ready(s) && Shaped(s) && Clean(s, c)
    ensures Ready(PassOf(s, c.mode, c.workToDo, c.env))
  {
    hide Inv, InOrder, PassOf, Lag, First, Second;
    ReadyPass(s, c.mode, c.workToDo, c.env);
  }

  lemma ReadyDelivers(s: State)
    requires Ready(s)
    ensures s.delivered <= s.deposited
  {
    hide Latest, Pending;
    if |s.order| > 0 { assert s.order[|s.order| - 1] == |s.order| - 1; }
  }

  // From every empty ring: a frame deposited between the two reads makes the ring look full, and
  // if two more arrive after the second turn, the later of them is delivered first.
  function Overtaking(f: Frame, g: Frame, h: Frame): Schedule
  {
    i => if i == 1 then [f] else if i == 5 then [g, h] else []
  }

  lemma Overtakes(s: State, workToDo: int, f: Frame, g: Frame, h: Frame)
    requires Ready(s) && s.running && Waiting(s) == 0 && workToDo >= 3
    ensures Shaped(s)
    ensures var r, m := PassOf(s, 0, workToDo, Overtaking(f, g, h)), |s.order|;
            && s.deposited + [f, g, h] <= r.deposited && |r.order| >= m + 2
            && r.order[m] == m && r.order[m + 1] == m + 2 && !InOrder(r)
  {
    hide Inv, InOrder, TurnOf, Turns, Lag, Latest, AtFirst, AtSecond, Overtaking;
    var env := Overtaking(f, g, h);
    Reads(s, env);
    var u, i := AtSecond(s, env), Least(workToDo, RING);
    OvertakenReads(s, f, g, h);
    OvertakenTurns(u, f, g, h);
    TurnsApart(u, env, 3, i);
    TurnsKeep(u, env, i);
    assert |Turns(u, env, i).order| >= |u.order| + 2;
    if InOrder(Turns(u, env, i)) { NotSkipped(Turns(u, env, i), |u.order| + 1); }
    MovedOrder(Turns(u, env, i), AtFirst(s, env).sd);
  }

  lemma NotSkipped(s: State, j: nat)
    requires InOrder(s) && j < |s.order|
    ensures s.order[j] == j
  {
  }

  lemma MovedOrder(s: State, c: nat)
    ensures InOrder(s) <==> InOrder(s.(cur := c, running := true))
  {
  }

  // A frame arrives between the reads.
  lemma OvertakenReads(s: State, f: Frame, g: Frame, h: Frame)
    requires Ready(s) && s.running && Waiting(s) == 0
    ensures Shaped(s)
    ensures var env := Overtaking(f, g, h);
            && First(s, env) == 0 && Ready(AtSecond(s, env)) && AtSecond(s, env).running
            && AtSecond(s, env).deposited == s.deposited + [f] && AtSecond(s, env).order == s.order
  {
    hide Inv, Latest;
    Shape(s);
    var env := Overtaking(f, g, h);
    Reads(s, env);
    DepositsFit(s, [f]);
    assert AtFirst(s, env) == s;
  }

  // It is delivered, an empty descriptor is passed, two frames arrive and the later is delivered.
  lemma OvertakenTurns(u: State, f: Frame, g: Frame, h: Frame)
    requires Ready(u) && u.running && Waiting(u) == 1
    ensures Shaped(u)
    ensures var r, m := Turns(u, Overtaking(f, g, h), 3), |u.order|;
            r.deposited == u.deposited + [g, h] && r.order == u.order + [m, m + 2]
  {
    hide Inv, InOrder, Lag, Latest, TurnOf, Turns;
    Shape(u);
    var env := Overtaking(f, g, h);
    var r1, r2, r3 := Turns(u, env, 1), Turns(u, env, 2), Turns(u, env, 3);
    NoTurns(u, env);
    NextTurn(u, env, 0);
    NextTurn(u, env, 1);
    NextTurn(u, env, 2);
    assert r1 == TurnOf(u, [], []) && r2 == TurnOf(r1, [], [g, h]) && r3 == TurnOf(r2, [], []);
    TurnKeeps(u, [], []);
    TurnLag(u, [], []);
    AtCur(u);
    QuietTurn(u, []);
    TurnKeeps(r1, [], [g, h]);
    TurnLag(r1, [], [g, h]);
    AtCur(r1);
    QuietTurn(r1, [g, h]);
    TurnKeeps(r2, [], []);
    AtCur(r2);
    StillTurn(r2);
    SecondNext(u, r2);
  }

  // The descriptor two behind the first of m frames holds frame m + 2.
  lemma SecondNext(u: State, r: State)
    requires Lag(u) == 0 && u.cur < RING && r.cur == Succ(Succ(u.cur, RING), RING)
    requires |r.deposited| == |u.order| + 3
    ensures Latest(|r.deposited|, r.cur) == |u.order| + 2
  {
    hide Latest, Lag, Succ;
    SdIsCur(u);
    ModSucc(|u.order|);
    ModSucc(|u.order| + 1);
    LatestIs(|r.deposited|, r.cur);
    SameResidue(|u.order| + 2, Latest(|r.deposited|, r.cur));
  }

  // A turn with room for all that is deposited.
  lemma QuietTurn(s: State, b: seq<Frame>)
    requires Resting(s) && InOrder(s) && !Lapped(s) && s.running && Waiting(s) + |b| <= RING
    ensures Shaped(s) && TurnOf(s, [], b).deposited == s.deposited + b && TurnOf(s, [], b).running
  {
    hide Inv, InOrder, Lag, Latest;
    AtCur(s);
    var t := s;
    if s.ring[s.cur].filled {
      HandKeeps(s);
      GiveBackKeeps(Hand(s));
      t := GiveBack(Hand(s));
      OneMore(s, t);
    }
    DepositsFit(t, b);
  }

  lemma OneMore(s: State, t: State)
    requires InOrder(s) && t.order == s.order + [|s.order|]
    ensures InOrder(t)
  {
  }

  lemma StillTurn(s: State)
    requires Shaped(s)
    ensures TurnOf(s, [], []).deposited == s.deposited
  {
  }

  // Deposits for which there is room.
  lemma {:induction false} DepositsFit(s: State, fs: seq<Frame>)
    requires Resting(s) && InOrder(s) && s.running && Waiting(s) + |fs| <= RING
    ensures Shaped(s) && Deposits(s, fs).deposited == s.deposited + fs && Deposits(s, fs).running
    decreases |fs|
  {
    hide Inv, InOrder, Latest;
    Shape(s);
    if fs != [] {
      var d := |s.deposited|;
      HeadOf(s, s.sd);
      LatestIs(d, s.sd);
      SameResidue(d, d - RING);
      DepositKeeps(s, fs[0]);
      SameOrder(s, Deposit(s, fs[0]));
      DepositsFit(Deposit(s, fs[0]), fs[1..]);
      assert s.deposited + [fs[0]] + fs[1..] == s.deposited + fs;
    }
  }

  lemma SameOrder(s: State, s': State)
    requires s.order == s'.order
    ensures InOrder(s) <==> InOrder(s')
  {
  }

  // Later turns only add.
  lemma {:induction false} TurnsApart(s: State, env: Schedule, i: nat, j: nat)
    requires Resting(s) && i <= j
    ensures Shaped(s) && Turns(s, env, i).order <= Turns(s, env, j).order
    ensures Turns(s, env, i).deposited <= Turns(s, env, j).deposited
  {
    hide Inv, TurnOf;
    Shape(s);
    if i < j {
      TurnsApart(s, env, i, j - 1);
      TurnsKeep(s, env, j - 1);
      TurnKeeps(Turns(s, env, j - 1), env(2 * j), env(2 * j + 1));
    }
  }

  lemma SafePass(s: State, workToDo: int, env: Schedule)
    requires Ready(s) && !(s.running && Waiting(s) == 0 && workToDo >= 3)
    ensures Shaped(s) && InOrder(PassOf(s, 0, workToDo, env))
  {
    hide Inv, InOrder, PassOf, Lag, AtFirst, AtSecond;
    Reads(s, env);
    ReadyPass(s, 0, workToDo, env);
    MisreadPass(s, 0, workToDo, env);
  }

  // A pass from a ready state keeps the order under every schedule exactly when it cannot be
  // misread with three turns to go.
  lemma SafeIff(s: State, workToDo: int)
    requires Ready(s)
    ensures Shaped(s)
    ensures (forall env: Schedule :: InOrder(PassOf(s, 0, workToDo, env)))
              <==> !(s.running && Waiting(s) == 0 && workToDo >= 3)
  {
    hide Inv, InOrder, PassOf;
    Shape(s);
    if s.running && Waiting(s) == 0 && workToDo >= 3 {
      Overtakes(s, workToDo, [], [], []);
      assert !InOrder(PassOf(s, 0, workToDo, Overtaking([], [], [])));
    } else {
      forall env: Schedule ensures InOrder(PassOf(s, 0, workToDo, env)) { SafePass(s, workToDo, env); }
    }
  }

  // ---- restarting the engine ----

  // A pass found the ring full, or was asked to take it for full and did not return early.
  predicate Restarts(s: State, mode: int, env: Schedule)
    requires Shaped(s)
  {
    var rxsd, u := AtFirst(s, env).sd, AtSecond(s, env);
    if rxsd == u.cur then u.ring[u.cur].filled else mode == 1
  }

  // From every state: such a pass leaves the engine running at the descriptor RXSD gave, and no other
  // pass starts a halted engine.
  lemma RestartIff(s: State, mode: int, workToDo: int, env: Schedule)
    requires Resting(s)
    ensures Shaped(s)
    ensures var r := PassOf(s, mode, workToDo, env);
            && (Restarts(s, mode, env) ==> r.running && r.cur == AtFirst(s, env).sd)
            && (!s.running ==> (r.running <==> Restarts(s, mode, env)))
  {
    hide Resting, AtFirst, AtSecond, Turns, TurnCount;
    ReadsKeep(s, env);
    var u := AtSecond(s, env);
    TurnsKeep(u, env, TurnCount(mode, workToDo, u.cur, AtFirst(s, env).sd));
  }

  // The engine is halted and nothing is left that would make a pass restart it.
  predicate Stalled(s: State)
    requires |s.ring| == RING
  {
    !s.running && forall i :: 0 <= i < RING ==> !s.ring[i].filled
  }

  // Descriptor q is filled, or is the next one a running engine fills.
  predicate Guard(s: State, q: nat)
    requires Shaped(s) && q < RING
  {
    s.ring[q].filled || (s.running && s.sd == q)
  }

  lemma {:induction false} DepositsGuard(s: State, fs: seq<Frame>, q: nat)
    requires Shaped(s) && q < RING
    ensures Guard(s, q) ==> Guard(Deposits(s, fs), q)
    ensures s.running || s.ring[s.sd].filled ==> Guard(Deposits(s, fs), Deposits(s, fs).sd)
    decreases |fs|
  {
    if fs != [] { DepositsGuard(Deposit(s, fs[0]), fs[1..], q); }
  }

  // A descriptor the driver does not come to stays guarded.
  lemma {:induction false} TurnsGuard(s: State, env: Schedule, i: nat, q: nat)
    requires Resting(s) && Shaped(s) && q < RING && Guard(s, q) && i <= Dist(q, s.cur, RING)
    ensures Guard(Turns(s, env, i), q)
  {
    hide Inv, Deposits, Succ;
    if i > 0 {
      var t := Turns(s, env, i - 1);
      TurnsKeep(s, env, i - 1);
      TurnsGuard(s, env, i - 1, q);
      NotReached(s.cur, i - 1, q);
      TurnGuard(t, env(2 * i), env(2 * i + 1), q);
    }
  }

  lemma NotReached(c: nat, i: nat, q: nat)
    requires c < RING && q < RING && i < Dist(q, c, RING)
    ensures (c + i) % RING != q
  {
  }

  lemma TurnGuard(s: State, a: seq<Frame>, b: seq<Frame>, q: nat)
    requires Shaped(s) && q < RING && Guard(s, q) && s.cur != q
    ensures Guard(TurnOf(s, a, b), q)
  {
    hide Deposits, Latest, Succ;
    if s.ring[s.cur].filled {
      DepositsGuard(Hand(s), a, q);
      DepositsGuard(GiveBack(Deposits(Hand(s), a)), b, q);
    } else {
      DepositsGuard(s, b, q);
    }
  }

  // With the engine halted, i turns empty the next i descriptors and touch no other.
  lemma {:induction false} HaltedTurns(s: State, env: Schedule, i: nat, k: nat)
    requires Resting(s) && !s.running && i <= RING && k < RING
    ensures Shaped(s) && (Turns(s, env, i).ring[k].filled <==> s.ring[k].filled && Dist(k, s.cur, RING) >= i)
    decreases i
  {
    hide Inv, Deposits, Succ;
    Shape(s);
    if i > 0 {
      var t := Turns(s, env, i - 1);
      TurnsKeep(s, env, i - 1);
      HaltedTurns(s, env, i - 1, k);
      HaltedTurn(t, env(2 * i), env(2 * i + 1), k);
      ReachedAt(s.cur, i - 1, k);
    }
  }

  lemma ReachedAt(c: nat, i: nat, k: nat)
    requires c < RING && k < RING && i < RING
    ensures (c + i) % RING == k <==> Dist(k, c, RING) == i
  {
  }

  lemma HaltedTurn(s: State, a: seq<Frame>, b: seq<Frame>, k: nat)
    requires Resting(s) && !s.running && k < RING
    ensures Shaped(s) && (TurnOf(s, a, b).ring[k].filled <==> s.ring[k].filled && k != s.cur)
  {
    hide Inv, Deposits, Succ, Latest;
    Shape(s);
    var t := s;
    if s.ring[s.cur].filled {
      HandKeeps(s);
      DepositsKeep(Hand(s), a);
      GiveBackKeeps(Hand(s));
      t := GiveBack(Hand(s));
    }
    DepositsKeep(t, b);
  }

  // The turns a pass makes.
  function TurnsMade(s: State, mode: int, workToDo: int): nat
    requires Shaped(s)
  {
    if s.sd == s.cur && !s.ring[s.cur].filled then 0 else TurnCount(mode, workToDo, s.cur, s.sd)
  }

  // From every state: a pass ends with the engine halted on an empty ring exactly when it found the
  // engine halted, does not restart it, and comes to all that is waiting.
  lemma StallIff(s: State, mode: int, workToDo: int, env: Schedule)
    requires Resting(s)
    ensures Shaped(s)
    ensures Stalled(PassOf(s, mode, workToDo, env)) <==>
            && !s.running && !Restarts(s, mode, env)
            && forall k :: 0 <= k < RING && s.ring[k].filled ==> Dist(k, s.cur, RING) < TurnsMade(s, mode, workToDo)
  {
    hide Resting, Turns, Deposits, Ahead;
    ReadsKeep(s, env);
    RestartIff(s, mode, workToDo, env);
    var rxsd, u := AtFirst(s, env).sd, AtSecond(s, env);
    var n := TurnCount(mode, workToDo, u.cur, rxsd);
    if !Restarts(s, mode, env) {
      if s.running {
        DepositsGuard(s, env(0), s.sd);
        DepositsGuard(AtFirst(s, env), env(1), rxsd);
        assert Guard(u, rxsd);
        if rxsd != u.cur {
          AheadIsDist(u.cur, rxsd);
          TurnsGuard(u, env, n, rxsd);
        }
      } else if !(rxsd == u.cur && !u.ring[u.cur].filled) {
        AheadIsDist(u.cur, rxsd);
        forall k | 0 <= k < RING
          ensures Turns(s, env, n).ring[k].filled <==> s.ring[k].filled && Dist(k, s.cur, RING) >= n
        {
          HaltedTurns(s, env, n, k);
        }
      }
    }
  }

  lemma AheadIsDist(c: nat, i: nat)
    requires c < RING && i < RING && c != i
    ensures Ahead(c, i) == Dist(i, c, RING)
  {
  }

  // From a driver at the right descriptor: the engine must have been halted with a ring that is
  // neither empty nor full, and the pass must not be a queue-full one and must deliver everything.
  lemma ReadyStall(s: State, mode: int, workToDo: int, env: Schedule)
    requires Ready(s)
    ensures Shaped(s)
    ensures Stalled(PassOf(s, mode, workToDo, env)) <==>
            !s.running && (Waiting(s) == 0 || (Waiting(s) < RING && mode != 1 && workToDo >= Waiting(s)))
  {
    hide Inv, InOrder, Lag, Latest, Turns, Deposits, Ahead;
    StallIff(s, mode, workToDo, env);
    ReadsKeep(s, env);
    Distance(s);
    AtCur(s);
    var w := Waiting(s);
    forall k | 0 <= k < RING ensures s.ring[k].filled <==> Dist(k, s.cur, RING) < w { FilledAhead(s, k); }
    if w > 0 { DistOnto(s.cur, w - 1); }
  }

  // The waiting frames are the ones from the driver's position on.
  lemma FilledAhead(s: State, k: nat)
    requires Ready(s) && k < RING
    ensures Shaped(s) && (s.ring[k].filled <==> Dist(k, s.cur, RING) < Waiting(s))
  {
    hide Inv, InOrder, Latest;
    Shape(s);
    HeadOf(s, k);
    LatestIs(|s.deposited|, k);
    var m, j := |s.order|, Dist(k, s.cur, RING);
    ReachedAt(s.cur, j, k);
    SdIsCur(s);
    SameResidue(m + j, Latest(|s.deposited|, k));
    ModAdd(m, j);
  }

  lemma ModAdd(m: nat, j: nat)
    ensures (m + j) % RING == (m % RING + j) % RING
    ensures (m + j - RING) % RING == (m + j) % RING
  {
  }

  lemma DistOnto(c: nat, j: nat)
    requires c < RING && j < RING
    ensures var k := (c + j) % RING; k < RING && Dist(k, c, RING) == j
  {
  }

  // If every pass that finds the engine halted is a queue-full one, the ring never stalls.
  lemma {:induction false} NeverStalls(calls: seq<Call>)
    requires forall i :: 0 <= i < |calls| ==> Serve(Start, calls[..i]).running || calls[i].mode == 1
    ensures !Stalled(Serve(Start, calls))
  {
    hide Inv, PassOf, Stalled;
    if |calls| == 0 {
      StartRuns();
    } else {
      var n := |calls| - 1;
      var s, c := Serve(Start, calls[..n]), calls[n];
      forall i | 0 <= i < n ensures Serve(Start, calls[..n][..i]).running || calls[..n][i].mode == 1 {
        assert calls[..n][..i] == calls[..i];
      }
      NeverStalls(calls[..n]);
      ExactlyOnce(calls[..n]);
      AnswerFull(s, c);
    }
  }

  lemma StartRuns()
    ensures !Stalled(Start)
  {
  }

  lemma AnswerFull(s: State, c: Call)
    requires Resting(s) && Shaped(s) && !Stalled(s) && (s.running || c.mode == 1)
    ensures !Stalled(PassOf(s, c.mode, c.workToDo, c.env))
  {
    hide Inv, PassOf, Turns, Deposits;
    ReadsKeep(s, c.env);
    StallIff(s, c.mode, c.workToDo, c.env);
  }

  // A stalled driver at the right descriptor is never served again.
  lemma StalledForever(s: State, mode: int, workToDo: int, env: Schedule)
    requires Ready(s) && Shaped(s) && Stalled(s)
    ensures PassOf(s, mode, workToDo, env) == s
  {
    hide Inv, InOrder, Lag, Latest, Turns, Deposits;
    ReadsKeep(s, env);
    Distance(s);
    FilledAhead(s, s.cur);
  }

  // ---- a run that stalls ----

  // More deposits than there is room for fill the ring and halt the engine.
  lemma {:induction false} DepositsFull(s: State, fs: seq<Frame>)
    requires Resting(s) && InOrder(s) && s.running && Waiting(s) + |fs| > RING
    ensures Shaped(s) && Waiting(Deposits(s, fs)) == RING && !Deposits(s, fs).running
    decreases |fs|
  {
    hide Inv, InOrder, Latest;
    Shape(s);
    HeadOf(s, s.sd);
    var s' := Deposit(s, fs[0]);
    DepositKeeps(s, fs[0]);
    SameOrder(s, s');
    NextSlot(s);
    if s'.running { DepositsFull(s', fs[1..]); } else { DepositsKeep(s', fs[1..]); }
  }

  // The engine's next descriptor is filled exactly when all are.
  lemma NextSlot(s: State)
    requires Resting(s) && InOrder(s)
    ensures Shaped(s) && (s.ring[s.sd].filled <==> Waiting(s) == RING)
  {
    hide Inv, InOrder, Latest;
    Shape(s);
    var d := |s.deposited|;
    HeadOf(s, s.sd);
    LatestIs(d, s.sd);
    SameResidue(d, d - RING);
  }

  // A turn that delivers and during which the engine fills the ring.
  lemma FillingTurn(s: State, b: seq<Frame>)
    requires Ready(s) && s.running && Waiting(s) > 0 && Waiting(s) + |b| > RING + 1
    ensures Shaped(s) && !TurnOf(s, [], b).running && |TurnOf(s, [], b).deposited| == |s.order| + 1 + RING
  {
    hide Inv, InOrder, Lag, Latest;
    AtCur(s);
    HandKeeps(s);
    GiveBackKeeps(Hand(s));
    var t := GiveBack(Hand(s));
    OneMore(s, t);
    DepositsFull(t, b);
    DepositsKeep(t, b);
  }

  lemma {:induction false} HaltedOn(s: State, env: Schedule, i: nat, j: nat)
    requires Resting(s) && Shaped(s) && i <= j && !Turns(s, env, i).running
    ensures !Turns(s, env, j).running && Turns(s, env, j).deposited == Turns(s, env, i).deposited
    decreases j
  {
    hide Inv, TurnOf;
    if i < j {
      HaltedOn(s, env, i, j - 1);
      TurnsKeep(s, env, j - 1);
      TurnKeeps(Turns(s, env, j - 1), env(2 * j), env(2 * j + 1));
    }
  }

  // n frames before the first read, and m in the first turn.
  function Flood(f: Frame, n: nat, m: nat): Schedule
  {
    i => if i == 0 then seq(n, _ => f) else if i == 3 then seq(m, _ => f) else []
  }

  // From every ready driver with an empty ring: if n frames arrive before a pass and enough of them
  // during it, the engine halts with a ring that the pass does not empty, and the next ordinary pass
  // empties it without restarting the engine.
  lemma Stalls(s: State, f: Frame, n: nat, m: nat, w: int, env: Schedule)
    requires Ready(s) && s.running && Waiting(s) == 0 && 1 < n < RING && n + m > RING + 1 && w >= RING
    ensures Shaped(s)
    ensures var r := PassOf(s, 0, w, Flood(f, n, m));
            && Ready(r) && !r.running && Waiting(r) == RING + 1 - n && |r.order| == |s.order| + n
            && Ready(PassOf(r, 0, w, env)) && Stalled(PassOf(r, 0, w, env))
  {
    hide Inv, InOrder, Lag, Latest, TurnOf, Turns, Ahead;
    var e := Flood(f, n, m);
    Reads(s, e);
    DepositsFit(s, seq(n, _ => f));
    var u := AtSecond(s, e);
    assert AtFirst(s, e) == u && u.running && Waiting(u) == n;
    NoTurns(u, e);
    NextTurn(u, e, 0);
    FillingTurn(u, seq(m, _ => f));
    HaltedOn(u, e, 1, n);
    Swept(u, e, n);
    TurnsKeep(u, e, n);
    var r := Turns(u, e, n);
    assert PassOf(s, 0, w, e) == r;
    ReadsKeep(r, env);
    ReadyStall(r, 0, w, env);
    ReadyPass(r, 0, w, env);
  }

  // Two passes as the interrupt handler makes them, and whatever passes follow: reception has stopped
  // for good.
  lemma {:induction false} StallRun(f: Frame, env: Schedule, calls: seq<Call>)
    ensures var two := [Call(0, 32, Flood(f, 15, 19)), Call(0, 32, env)];
            Stalled(Serve(Start, two + calls)) && Serve(Start, two + calls) == Serve(Start, two)
    decreases |calls|
  {
    hide Inv, InOrder, Lag, PassOf, Stalled;
    var a, b := Call(0, 32, Flood(f, 15, 19)), Call(0, 32, env);
    var two := [a, b];
    if |calls| == 0 {
      StartReady();
      Stalls(Start, f, 15, 19, 32, env);
      assert two + calls == two;
      assert two[..1] == [a] && [a][..0] == [];
      assert Serve(Start, [a]) == PassOf(Start, 0, 32, a.env);
      assert Serve(Start, two) == PassOf(Serve(Start, [a]), 0, 32, env);
    } else {
      var n := |calls| - 1;
      StallRun(f, env, calls[..n]);
      assert (two + calls)[..|two + calls| - 1] == two + calls[..n];
      TwoReady(f, env);
      StalledForever(Serve(Start, two), calls[n].mode, calls[n].workToDo, calls[n].env);
    }
  }

  lemma TwoReady(f: Frame, env: Schedule)
    ensures Ready(Serve(Start, [Call(0, 32, Flood(f, 15, 19)), Call(0, 32, env)]))
  {
    hide Inv, InOrder, Lag, PassOf, Stalled;
    var a, b := Call(0, 32, Flood(f, 15, 19)), Call(0, 32, env);
    StartReady();
    Stalls(Start, f, 15, 19, 32, env);
    assert [a, b][..1] == [a] && [a][..0] == [];
    assert Serve(Start, [a]) == PassOf(Start, 0, 32, a.env);
  }

  // ---- the driver ----

  class RxRing {
    var ring: seq<Slot>
    var cur: nat                 // rxring.cur_index
    var sd: nat
    var running: bool
    var delivered: seq<Frame>    // what LanRecv was called with
    ghost var held: bool
    ghost var deposited: seq<Frame>
    ghost var order: seq<int>

    ghost function S(): State
      reads this
    {
      State(ring, cur, sd, held, running, deposited, delivered, order)
    }

    // star_nic_buffer_alloc
    constructor ()
      ensures S() == Start && Ready(S())
    {
      ring := seq(RING, _ => Slot(false, []));
      cur, sd, running, held, deposited, delivered, order := 0, 0, true, false, [], [], [];
      new;
      StartReady();
    }

    // The engine deposits some frames.
    method Engine(fs: seq<Frame>)
      requires Shaped(S())
      modifies this
      ensures S() == Deposits(old(S()), fs)
    {
      var i := 0;
      while i < |fs|
        invariant 0 <= i <= |fs| && Shaped(S()) && Deposits(S(), fs[i..]) == Deposits(old(S()), fs)
      {
        assert fs[i..][1..] == fs[i + 1..];
        if running {
          if ring[sd].filled {
            running := false;
          } else {
            ring := ring[sd := Slot(true, fs[i])];
            sd := Succ(sd, RING);
            deposited := deposited + [fs[i]];
          }
        }
        i := i + 1;
      }
    }

    // One turn of the loop (star_nic.c:1751-1792), the engine running in between.
    method Turn(a: seq<Frame>, b: seq<Frame>)
      requires Shaped(S())
      modifies this
      ensures S() == TurnOf(old(S()), a, b)
    {
      if ring[cur].filled {
        delivered := delivered + [ring[cur].frame];       // LanRecv
        order, held := order + [Latest(|deposited|, cur)], true;
        Engine(a);
        ring, held := ring[cur := ring[cur].(filled := false)], false;
      }
      Engine(b);
      cur := if cur == RING - 1 then 0 else cur + 1;
    }

    // star_nic_receive_packet, for every schedule of the engine.
    method ReceivePacket(mode: int, workToDo: int, env: Schedule)
      requires Resting(S())
      modifies this
      ensures old(Shaped(S())) && S() == PassOf(old(S()), mode, workToDo, env)
      ensures Resting(S()) && old(deposited) <= deposited && old(order) <= order && old(delivered) <= delivered
      ensures old(Restarts(S(), mode, env)) ==> running && cur == old(AtFirst(S(), env).sd)
      ensures var k1, k2 := old(First(S(), env)), old(Second(S(), env));
              old(Ready(S())) && (mode == 1 ==> !old(running)) && !Misread(mode, workToDo, k1, k2) ==>
                && InOrder(S()) && |order| == |old(order)| + (if mode == 1 then k1 else Least(workToDo, k1))
                && (Ready(S()) <==> !(mode != 1 && k1 == RING && 0 < workToDo < RING))
    {
      hide Inv, InOrder, Lag, Turns, TurnOf, Deposits;
      Shape(S());
      PassKeeps(S(), mode, workToDo, env);
      RestartIff(S(), mode, workToDo, env);
      ghost var s := S();
      if Ready(s) && (mode == 1 ==> !running) { ReadyPass(s, mode, workToDo, env); }
      Engine(env(0));
      assert S() == AtFirst(s, env);
      var rxsd := sd;
      Engine(env(1));
      assert S() == AtSecond(s, env);
      var go, rxqf, rxcount := Plan(mode, workToDo, rxsd);
      if !go { return; }
      Pass(rxcount, env);
      if rxqf {
        cur := rxsd;
        running := true;         // HAL_NIC_RX_DMA_START
      }
    }

    // star_nic.c:1726-1749: whether to go on, as after a full queue, and for how many turns.
    method Plan(mode: int, workToDo: int, rxsd: nat) returns (go: bool, rxqf: bool, rxcount: int)
      requires |ring| == RING && cur < RING && rxsd < RING
      ensures go <==> rxsd != cur || ring[cur].filled
      ensures go ==> (rxqf <==> mode == 1 || rxsd == cur)
      ensures go ==> rxcount <= RING && Least(rxcount, RING) == TurnCount(mode, workToDo, cur, rxsd)
    {
      go, rxqf, rxcount := true, false, 0;
      if rxsd > cur {
        rxcount := rxsd - cur;
      } else if rxsd < cur {
        rxcount := (RING - cur) + rxsd;
      } else if !ring[cur].filled {
        return false, false, 0;
      } else {
        rxqf, rxcount := true, RING;
      }
      if rxcount > workToDo { rxcount := workToDo; }
      if mode == 1 { rxqf, rxcount := true, RING; }
    }

    // The loop (star_nic.c:1751-1792).
    method Pass(rxcount: int, env: Schedule)
      requires Shaped(S()) && rxcount <= RING
      modifies this
      ensures S() == Turns(old(S()), env, Least(rxcount, RING))
    {
      hide TurnOf;
      var i := 0;
      while i < rxcount
        invariant 0 <= i && (i <= rxcount || i == 0) && S() == Turns(old(S()), env, i)
      {
        Turn(env(2 * i + 2), env(2 * i + 3));
        i := i + 1;
      }
    }
  }
}
