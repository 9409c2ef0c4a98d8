/**
 Page migration under a running application: mark, write-protect, copy word by word, remap, release,
 interleaved with any reads and writes of the application and with other pages being mapped and
 unmapped. What the application reads is always what was last written.
 */
module MigrationProtocol {
  import opened Basics
  import opened PebsState

  type Word = int
  type Thread = int

  /** How far the one migration the policy thread has in hand has come. */
  datatype Phase =
    | Idle
    | Marked(va: Address, dst: Frame)                        // `migrating` is set
    | Copying(va: Address, dst: Frame, copied: set<nat>)     // hemem_wp_page has returned
    | Remapped(va: Address, src: Frame)                      // the new mapping is in place

  datatype Attempt = Attempt(va: Address, i: nat, w: Word)

  /**
   Device memory, the mappings the application sees, the write-protected addresses, the migration in
   hand, and the threads blocked in a write-protection fault.
   */
  datatype Machine = Machine(
    words: nat,
    mem: map<Frame, seq<Word>>,
    pte: map<Address, Frame>,
    wp: set<Address>,
    phase: Phase,
    blocked: map<Thread, Attempt>)

  datatype Event =
    | Map(va: Address, frame: Frame)
    | Unmap(va: Address)
    | Read(va: Address, i: nat, w: Word)
    | Write(va: Address, i: nat, w: Word)
    | Fault(t: Thread, attempt: Attempt)    // a write to a protected page: the thread waits for `migrating`
    | Wake(t: Thread)                       // handle_wp_fault returns; the thread will retry its write
    | Begin(va: Address, dst: Frame)        // page->migrating = true
    | Protect                               // hemem_wp_page(page, true)
    | ProtectFails                          // its ioctl fails with an error the code tolerates
    | CopyWord(k: nat)
    | Remap                                 // mmap of the new frame over va: a fresh, unprotected mapping
    | Release                               // page->migrating = false

  predicate Migrating(m: Machine, va: Address) { !m.phase.Idle? && m.phase.va == va }

  /** Frames the policy thread has in hand besides the mapped ones. */
  predicate InHand(m: Machine, f: Frame) {
    match m.phase
    case Idle => false
    case Marked(_, dst) => f == dst
    case Copying(_, dst, _) => f == dst
    case Remapped(_, src) => f == src
  }

  predicate Mapped(m: Machine, va: Address, i: nat) {
    va in m.pte && m.pte[va] in m.mem && i < |m.mem[m.pte[va]]|
  }

  /** Can e happen in m? */
  predicate Enabled(m: Machine, e: Event) {
    match e
    case Map(va, f) => va !in m.pte && f in m.mem && f !in m.pte.Values && !InHand(m, f) && !Migrating(m, va)
    case Unmap(va) => va in m.pte && !Migrating(m, va)
    case Read(va, i, w) => Mapped(m, va, i) && w == m.mem[m.pte[va]][i]
    case Write(va, i, w) => Mapped(m, va, i) && va !in m.wp
    case Fault(t, a) => t !in m.blocked && Mapped(m, a.va, a.i) && a.va in m.wp
    case Wake(t) => t in m.blocked && !Migrating(m, m.blocked[t].va)
    case Begin(va, dst) => m.phase.Idle? && va in m.pte && dst in m.mem && dst !in m.pte.Values
    case Protect => m.phase.Marked?
    case ProtectFails => m.phase.Marked?
    case CopyWord(k) => m.phase.Copying? && k < m.words && m.phase.va in m.pte
    case Remap => m.phase.Copying? && m.phase.va in m.pte && forall k :: 0 <= k < m.words ==> k in m.phase.copied
    case Release => m.phase.Remapped?
  }

  function Store(m: Machine, f: Frame, i: nat, w: Word): Machine {
    if f in m.mem && i < |m.mem[f]| then m.(mem := m.mem[f := m.mem[f][i := w]]) else m
  }

  function Load(m: Machine, f: Frame, i: nat): Word {
    if f in m.mem && i < |m.mem[f]| then m.mem[f][i] else 0
  }

  function Next(m: Machine, e: Event): Machine
    requires Enabled(m, e)
  {
    match e
    case Map(va, f) => m.(pte := m.pte[va := f])
    case Unmap(va) => m.(pte := m.pte - {va})
    case Read(va, i, w) => m
    case Write(va, i, w) => Store(m, m.pte[va], i, w)
    case Fault(t, a) => m.(blocked := m.blocked[t := a])
    case Wake(t) => m.(blocked := m.blocked - {t})
    case Begin(va, dst) => m.(phase := Marked(va, dst))
    case Protect => m.(wp := m.wp + {m.phase.va}, phase := Copying(m.phase.va, m.phase.dst, {}))
    case ProtectFails => m.(phase := Copying(m.phase.va, m.phase.dst, {}))
    case CopyWord(k) =>
      Store(m, m.phase.dst, k, Load(m, m.pte[m.phase.va], k)).(phase := m.phase.(copied := m.phase.copied + {k}))
    case Remap =>
      m.(pte := m.pte[m.phase.va := m.phase.dst], wp := m.wp - {m.phase.va},
         phase := Remapped(m.phase.va, m.pte[m.phase.va]))
    case Release => m.(phase := Idle)
  }

  // ---- runs and their history ----

  /** m with no mappings, no migration, and every frame holding a whole page of anything. */
  ghost predicate Initial(m: Machine) {
    && m.pte == map[] && m.wp == {} && m.phase == Idle && m.blocked == map[]
    && forall f :: f in m.mem ==> |m.mem[f]| == m.words
  }

  function Run(m: Machine, h: seq<Event>): Option<Machine>
    decreases |h|
  {
    if h == [] then Some(m)
    else match Run(m, h[..|h| - 1])
      case None => None
      case Some(m1) => var e := h[|h| - 1]; if Enabled(m1, e) then Some(Next(m1, e)) else None
  }

  /** What word i at va holds according to the history alone; a new mapping starts with what its frame held. */
  function LastWritten(m: Machine, h: seq<Event>, va: Address, i: nat): Option<Word>
    decreases |h|
  {
    if h == [] then None
    else
      var before := h[..|h| - 1];
      match h[|h| - 1]
      case Write(a, k, w) => if a == va && k == i then Some(w) else LastWritten(m, before, va, i)
      case Unmap(a) => if a == va then None else LastWritten(m, before, va, i)
      case Map(a, f) =>
        if a != va then LastWritten(m, before, va, i)
        else (match Run(m, before)
              case None => None
              case Some(m1) => if f in m1.mem && i < |m1.mem[f]| then Some(m1.mem[f][i]) else None)
      case _ => LastWritten(m, before, va, i)
  }

  // ---- the invariant ----

  ghost predicate FrameOk(m: Machine, f: Frame) {
    f in m.mem ==> |m.mem[f]| == m.words
  }

  ghost predicate PteOk(m: Machine, va: Address) {
    va in m.pte ==> m.pte[va] in m.mem && !InHand(m, m.pte[va])
  }

  ghost predicate PteApart(m: Machine, a: Address, b: Address) {
    a in m.pte && b in m.pte && a != b ==> m.pte[a] != m.pte[b]
  }

  /** No two mappings share a frame, the target is not mapped, and only the page being copied is protected. */
  ghost predicate Inv(m: Machine) {
    && (forall f: Frame :: FrameOk(m, f))
    && (forall va: Address :: PteOk(m, va))
    && (forall a: Address, b: Address :: PteApart(m, a, b))
    && (m.phase.Idle? || m.phase.Marked? || m.phase.Remapped? ==> m.wp == {})
    && (!m.phase.Idle? ==> m.phase.va in m.pte)
    && (m.phase.Marked? || m.phase.Copying? ==> m.phase.dst in m.mem)
    && (m.phase.Copying? ==> m.wp == {m.phase.va})
    && (m.phase.Copying? ==> forall k :: k in m.phase.copied && k < m.words ==> Copied(m, k))
  }

  ghost predicate Copied(m: Machine, k: nat) {
    m.phase.Copying? && m.phase.va in m.pte ==> Load(m, m.phase.dst, k) == Load(m, m.pte[m.phase.va], k)
  }

  lemma NextKeeps(m: Machine, e: Event)
    requires Inv(m) && Enabled(m, e) && !e.ProtectFails?
    ensures Inv(Next(m, e)) && Next(m, e).words == m.words
  {
    var m' := Next(m, e);
    forall f: Frame ensures FrameOk(m', f) { assert FrameOk(m, f); }
    forall va: Address ensures PteOk(m', va) {
      assert PteOk(m, va);
      if !m.phase.Idle? { assert PteOk(m, m.phase.va) && PteApart(m, va, m.phase.va); }
    }
    forall a: Address, b: Address ensures PteApart(m', a, b) {
      assert PteApart(m, a, b) && PteOk(m, a) && PteOk(m, b);
    }
    if m'.phase.Copying? { CopyKeeps(m, e); }
  }

  /** While a page is being copied it is protected, and nobody else writes to its frame or to the target. */
  lemma CopyKeeps(m: Machine, e: Event)
    requires Inv(m) && Enabled(m, e) && !e.ProtectFails? && Next(m, e).phase.Copying?
    ensures forall k :: k in Next(m, e).phase.copied && k < m.words ==> Copied(Next(m, e), k)
  {
    var m' := Next(m, e);
    if m.phase.Copying? {
      var va, dst := m.phase.va, m.phase.dst;
      var src := m.pte[va];
      assert PteOk(m, va) && FrameOk(m, src) && FrameOk(m, dst);
      if e.Write? { assert PteOk(m, e.va) && PteApart(m, e.va, va); }
      forall k | k in m'.phase.copied && k < m.words ensures Copied(m', k) {
        if k in m.phase.copied { assert Copied(m, k); }
      }
    }
  }

  // ---- migration is invisible ----

  ghost predicate HoldsLast(m0: Machine, h: seq<Event>, m: Machine, va: Address, i: nat) {
    va in m.pte && i < m.words ==> LastWritten(m0, h, va, i) == Some(Load(m, m.pte[va], i))
  }

  predicate Protects(h: seq<Event>) { forall k :: 0 <= k < |h| ==> !h[k].ProtectFails? }

  /** Only a write, a new mapping and an unmapping change what an address holds. */
  lemma NextHolds(m0: Machine, h: seq<Event>, m: Machine, e: Event, va: Address, i: nat)
    requires Run(m0, h) == Some(m) && Inv(m) && Enabled(m, e) && !e.ProtectFails?
    requires HoldsLast(m0, h, m, va, i)
    ensures HoldsLast(m0, h + [e], Next(m, e), va, i)
  {
    var m' := Next(m, e);
    assert (h + [e])[..|h + [e]| - 1] == h && (h + [e])[|h + [e]| - 1] == e;
    if va in m'.pte && i < m.words {
      match e
      case Map(a, f) => if a == va { assert FrameOk(m, f); }
      case Unmap(a) =>
      case Write(a, k, w) =>
        assert PteOk(m, va) && PteOk(m, a) && PteApart(m, a, va) && FrameOk(m, m.pte[va]);
      case CopyWord(k) =>
        assert PteOk(m, va);
      case Remap =>
        if va == m.phase.va { assert Copied(m, i); }
      case _ =>
    }
  }

  lemma {:induction false} RunHolds(m0: Machine, h: seq<Event>)
    requires Initial(m0) && Run(m0, h).Some? && Protects(h)
    ensures var m := Run(m0, h).value;
            && Inv(m) && m.words == m0.words
            && forall va: Address, i: nat :: HoldsLast(m0, h, m, va, i)
    decreases |h|
  {
    if h == [] {
      forall f: Frame ensures FrameOk(m0, f) { }
    } else {
      var before, e := h[..|h| - 1], h[|h| - 1];
      assert h == before + [e];
      RunHolds(m0, before);
      var m := Run(m0, before).value;
      NextKeeps(m, e);
      hide Next, Inv;
      forall va: Address, i: nat ensures HoldsLast(m0, h, Next(m, e), va, i) {
        assert HoldsLast(m0, before, m, va, i);
        NextHolds(m0, before, m, e, va, i);
      }
    }
  }

  /** Every read of every run returns the last value written to that word. */
  lemma MigrationInvisible(m0: Machine, h: seq<Event>, n: nat)
    requires Initial(m0) && Run(m0, h).Some? && Protects(h)
    requires n < |h| && h[n].Read?
    ensures LastWritten(m0, h[..n], h[n].va, h[n].i) == Some(h[n].w)
  {
    RunPrefix(m0, h, n + 1);
    var before := h[..n];
    assert h[..n + 1][..n] == before && h[..n + 1][n] == h[n];
    RunHolds(m0, before);
    var m := Run(m0, before).value;
    assert PteOk(m, h[n].va) && FrameOk(m, m.pte[h[n].va]);
    assert HoldsLast(m0, before, m, h[n].va, h[n].i);
  }

  lemma RunPrefix(m0: Machine, h: seq<Event>, n: nat)
    requires Run(m0, h).Some? && n <= |h|
    ensures Run(m0, h[..n]).Some?
    decreases |h|
  {
    if n == |h| {
      assert h[..n] == h;
    } else {
      assert h[..|h| - 1][..n] == h[..n];
      RunPrefix(m0, h[..|h| - 1], n);
    }
  }

  /** A thread that faulted waits only while its page migrates: once woken, its write is possible. */
  lemma WokenWriteSucceeds(m0: Machine, h: seq<Event>, t: Thread)
    requires Initial(m0) && Run(m0, h).Some? && Protects(h)
    requires Enabled(Run(m0, h).value, Wake(t))
    ensures var m := Run(m0, h).value;
            var a := m.blocked[t];
            Mapped(m, a.va, a.i) ==> Enabled(Next(m, Wake(t)), Write(a.va, a.i, a.w))
  {
    RunHolds(m0, h);
  }

  // ---- a migration's own events ----

  /** The copy of the first n words. */
  function Copies(n: nat): seq<Event> {
    if n == 0 then [] else Copies(n - 1) + [CopyWord(n - 1)]
  }

  lemma RunAppend(m0: Machine, h: seq<Event>, e: Event)
    requires Run(m0, h).Some? && Enabled(Run(m0, h).value, e)
    ensures Run(m0, h + [e]) == Some(Next(Run(m0, h).value, e))
  {
    assert (h + [e])[..|h + [e]| - 1] == h;
  }

  /** m is copying a page between two frames. */
  ghost predicate ReadyToCopy(m: Machine) {
    && m.phase.Copying? && m.phase.va in m.pte && m.pte[m.phase.va] != m.phase.dst
    && m.pte[m.phase.va] in m.mem && m.phase.dst in m.mem
    && |m.mem[m.pte[m.phase.va]]| == |m.mem[m.phase.dst]| == m.words
  }

  /** m' is m with the first j words copied, the page itself as it was. */
  ghost predicate CopiedTo(m: Machine, m': Machine, j: nat)
    requires ReadyToCopy(m)
  {
    && ReadyToCopy(m') && m'.pte == m.pte && m'.wp == m.wp && m'.words == m.words && m'.blocked == m.blocked && m'.mem.Keys == m.mem.Keys
    && m'.phase.va == m.phase.va && m'.phase.dst == m.phase.dst
    && m'.mem[m.pte[m.phase.va]] == m.mem[m.pte[m.phase.va]]
    && (forall k :: 0 <= k < j ==> k in m'.phase.copied)
    && (forall k :: 0 <= k < j && k < m.words ==> m'.mem[m.phase.dst][k] == m.mem[m.pte[m.phase.va]][k])
  }

  lemma {:induction false} CopiesRun(m0: Machine, h: seq<Event>, j: nat)
    requires Run(m0, h).Some? && ReadyToCopy(Run(m0, h).value) && j <= Run(m0, h).value.words
    ensures Run(m0, h + Copies(j)).Some? && CopiedTo(Run(m0, h).value, Run(m0, h + Copies(j)).value, j)
  {
    if j == 0 {
      assert h + Copies(0) == h;
    } else {
      CopiesRun(m0, h, j - 1);
      CopyStep(Run(m0, h).value, Run(m0, h + Copies(j - 1)).value, j);
      hide Run, Next, Enabled, CopiedTo, ReadyToCopy;
      RunAppend(m0, h + Copies(j - 1), CopyWord(j - 1));
      assert h + Copies(j - 1) + [CopyWord(j - 1)] == h + Copies(j);
    }
  }

  lemma CopyStep(m: Machine, m1: Machine, j: nat)
    requires ReadyToCopy(m) && 0 < j <= m.words && CopiedTo(m, m1, j - 1)
    ensures Enabled(m1, CopyWord(j - 1)) && CopiedTo(m, Next(m1, CopyWord(j - 1)), j)
  {
  }

  /** One whole migration, protected, of a page of n words. */
  function Moving(va: Address, dst: Frame, n: nat): seq<Event> {
    [Begin(va, dst)] + [Protect] + Copies(n) + [Remap] + [Release]
  }

  /** m' is m with the page at va in frame dst. */
  ghost predicate MovedTo(m: Machine, m': Machine, va: Address, dst: Frame) {
    m'.pte == m.pte[va := dst] && m'.phase == Idle && m'.words == m.words && m'.mem.Keys == m.mem.Keys
  }

  lemma BeginProtect(m: Machine, va: Address, dst: Frame)
    requires Inv(m) && Enabled(m, Begin(va, dst))
    ensures Enabled(Next(m, Begin(va, dst)), Protect)
    ensures var m1 := Next(Next(m, Begin(va, dst)), Protect);
            ReadyToCopy(m1) && m1.words == m.words && m1.pte == m.pte && m1.mem == m.mem && m1.phase.va == va && m1.phase.dst == dst
  {
    assert PteOk(m, va) && FrameOk(m, m.pte[va]) && FrameOk(m, dst);
  }

  lemma RemapRelease(m1: Machine, m2: Machine)
    requires ReadyToCopy(m1) && CopiedTo(m1, m2, m1.words)
    ensures Enabled(m2, Remap) && Enabled(Next(m2, Remap), Release)
    ensures MovedTo(m1, Next(Next(m2, Remap), Release), m1.phase.va, m1.phase.dst)
  {
  }

  /** From any sound idle state a migration that may begin can run to its end. */
  lemma MovingRuns(m: Machine, va: Address, dst: Frame)
    requires Inv(m) && Enabled(m, Begin(va, dst))
    ensures Run(m, Moving(va, dst, m.words)).Some? && MovedTo(m, Run(m, Moving(va, dst, m.words)).value, va, dst)
  {
    BeginProtect(m, va, dst);
    assert Run(m, []) == Some(m);
    hide Run, Next, Enabled, Inv, ReadyToCopy, CopiedTo, MovedTo, Copies;
    var n := m.words;
    RunAppend(m, [], Begin(va, dst));
    assert [] + [Begin(va, dst)] == [Begin(va, dst)];
    RunAppend(m, [Begin(va, dst)], Protect);
    var h := [Begin(va, dst)] + [Protect];
    var m1 := Run(m, h).value;
    CopiesRun(m, h, n);
    RemapRelease(m1, Run(m, h + Copies(n)).value);
    RunAppend(m, h + Copies(n), Remap);
    RunAppend(m, h + Copies(n) + [Remap], Release);
    MovedSame(m, m1, Run(m, Moving(va, dst, n)).value, va, dst);
  }

  lemma MovedSame(m: Machine, m1: Machine, m2: Machine, va: Address, dst: Frame)
    requires m1.pte == m.pte && m1.mem == m.mem && m1.words == m.words && MovedTo(m1, m2, va, dst)
    ensures MovedTo(m, m2, va, dst)
  {
  }

  lemma {:induction false} RunSound(m: Machine, h: seq<Event>)
    requires Inv(m) && Run(m, h).Some? && Protects(h)
    ensures Inv(Run(m, h).value)
    decreases |h|
  {
    if h != [] {
      RunSound(m, h[..|h| - 1]);
      NextKeeps(Run(m, h[..|h| - 1]).value, h[|h| - 1]);
    }
  }

  lemma MovingProtects(va: Address, dst: Frame, n: nat)
    ensures Protects(Moving(va, dst, n))
  {
    CopiesProtect(n);
  }

  // ---- what the protection is for ----

  /**
   hemem_wp_page carries on when its ioctl fails with EBADF or ENOENT. Whatever has happened before,
   and whichever page is being moved, there is then a way to go on that loses a write.
   */
  lemma UnprotectedWriteIsLost(m0: Machine, h: seq<Event>)
    requires Initial(m0) && Run(m0, h).Some? && Protects(h) && Run(m0, h).value.phase.Marked? && m0.words > 0
    ensures exists t: seq<Event>, va: Address, i: nat, w: Word ::
              && Protects(t) && Run(m0, h + [ProtectFails] + t + [Read(va, i, w)]).Some?
              && LastWritten(m0, h + [ProtectFails] + t, va, i) != Some(w)
  {
    RunHolds(m0, h);
    var m := Run(m0, h).value;
    FailedProtection(m);
    hide Run, Inv, Next, Enabled, Initial, LastWritten;
    RunAppend(m0, h, ProtectFails);
    var m1 := Next(m, ProtectFails);
    var va, w := m1.phase.va, m1.mem[m1.pte[m1.phase.va]][0];
    LossRun(m0, h + [ProtectFails], m1, va, m1.words, w);
    LossyProtects(va, m1.words, w);
    assert LastWritten(m0, h + [ProtectFails] + Lossy(va, m1.words, w), va, 0) != Some(w);
  }

  /** A write that falls between the copy of its word and the remap. */
  function Lossy(va: Address, n: nat, w: Word): seq<Event> {
    Copies(n) + [Write(va, 0, w + 1)] + [Remap]
  }

  lemma LossyProtects(va: Address, n: nat, w: Word)
    ensures Protects(Lossy(va, n, w))
  {
    CopiesProtect(n);
  }

  lemma LossRun(m0: Machine, h: seq<Event>, m1: Machine, va: Address, n: nat, w: Word)
    requires Run(m0, h) == Some(m1) && ReadyToCopy(m1) && n == m1.words > 0 && m1.wp == {}
    requires va == m1.phase.va && w == m1.mem[m1.pte[va]][0]
    ensures Run(m0, h + Lossy(va, n, w) + [Read(va, 0, w)]).Some?
    ensures LastWritten(m0, h + Lossy(va, n, w), va, 0) == Some(w + 1)
  {
    hide Run, Next, Enabled, ReadyToCopy, CopiedTo, LastWritten, Copies;
    CopiesRun(m0, h, n);
    LossSteps(m1, Run(m0, h + Copies(n)).value);
    var h2 := h + Copies(n);
    RunAppend(m0, h2, Write(va, 0, w + 1));
    RunAppend(m0, h2 + [Write(va, 0, w + 1)], Remap);
    RunAppend(m0, h2 + [Write(va, 0, w + 1)] + [Remap], Read(va, 0, w));
    LastIsWrite(m0, h2, va, w + 1);
    Regroup(h, Copies(n), Write(va, 0, w + 1), Remap);
  }

  lemma Regroup(h: seq<Event>, c: seq<Event>, e: Event, f: Event)
    ensures h + (c + [e] + [f]) == h + c + [e] + [f]
  {
  }

  lemma FailedProtection(m: Machine)
    requires Inv(m) && m.phase.Marked? && m.words > 0
    ensures Enabled(m, ProtectFails) && ReadyToCopy(Next(m, ProtectFails))
    ensures var m1 := Next(m, ProtectFails); m1.words == m.words && m1.wp == {} && m1.phase.va == m.phase.va
  {
    assert PteOk(m, m.phase.va) && FrameOk(m, m.pte[m.phase.va]) && FrameOk(m, m.phase.dst);
  }

  /** The page is copied but not protected: a write goes to the old frame, and the remap brings the copy back. */
  lemma LossSteps(m1: Machine, m: Machine)
    requires ReadyToCopy(m1) && m1.words > 0 && m1.wp == {} && CopiedTo(m1, m, m1.words)
    ensures var va := m1.phase.va;
            var w := m1.mem[m1.pte[va]][0];
            && Enabled(m, Write(va, 0, w + 1))
            && Enabled(Next(m, Write(va, 0, w + 1)), Remap)
            && Enabled(Next(Next(m, Write(va, 0, w + 1)), Remap), Read(va, 0, w))
  {
  }

  lemma CopiesProtect(n: nat)
    ensures Protects(Copies(n))
  {
  }

  lemma LastIsWrite(m0: Machine, h: seq<Event>, va: Address, w: Word)
    ensures LastWritten(m0, h + [Write(va, 0, w)] + [Remap], va, 0) == Some(w)
  {
    var h1 := h + [Write(va, 0, w)];
    var h2 := h1 + [Remap];
    assert h2[..|h2| - 1] == h1 && h1[..|h1| - 1] == h;
  }

  /** Every read of the run returns the last value written. */
  ghost predicate ReadsTrue(m0: Machine, h: seq<Event>) {
    forall n :: 0 <= n < |h| && h[n].Read? ==> LastWritten(m0, h[..n], h[n].va, h[n].i) == Some(h[n].w)
  }

  lemma ProtectedReadsTrue(m0: Machine, h: seq<Event>)
    requires Initial(m0) && Run(m0, h).Some? && Protects(h)
    ensures ReadsTrue(m0, h)
  {
    hide Run, LastWritten;
    forall n | 0 <= n < |h| && h[n].Read? ensures LastWritten(m0, h[..n], h[n].va, h[n].i) == Some(h[n].w) {
      MigrationInvisible(m0, h, n);
    }
  }

  /** The protection step decides: every way to go on reads true if and only if the protection succeeds. */
  lemma ProtectionDecides(m0: Machine, h: seq<Event>, e: Event)
    requires Initial(m0) && Run(m0, h).Some? && Protects(h) && Run(m0, h).value.phase.Marked? && m0.words > 0
    requires e == Protect || e == ProtectFails
    ensures e == Protect <==> forall t: seq<Event> :: Protects(t) && Run(m0, h + [e] + t).Some? ==> ReadsTrue(m0, h + [e] + t)
  {
    hide Run, LastWritten, Initial;
    if e == Protect {
      forall t: seq<Event> | Protects(t) && Run(m0, h + [e] + t).Some? ensures ReadsTrue(m0, h + [e] + t) {
        assert Protects(h + [e] + t);
        ProtectedReadsTrue(m0, h + [e] + t);
      }
    } else {
      UnprotectedWriteIsLost(m0, h);
      var t, va, i, w :| && Protects(t) && Run(m0, h + [ProtectFails] + t + [Read(va, i, w)]).Some?
                         && LastWritten(m0, h + [ProtectFails] + t, va, i) != Some(w);
      var t' := t + [Read(va, i, w)];
      var all := h + [e] + t';
      assert all == h + [ProtectFails] + t + [Read(va, i, w)];
      assert Protects(t');
      var n := |all| - 1;
      assert all[..n] == h + [ProtectFails] + t && all[n] == Read(va, i, w);
      assert !ReadsTrue(m0, all);
    }
  }
}
