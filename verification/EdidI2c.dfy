/** The page-cached I2C driver of `server/src/vm/edid_i2c.rs` and its EDID read loops. */
module EdidI2c {
  import opened Wrappers
  import opened Bytes

  const REG_OFFSET: byte := 0xFF
  const SYS_OFFSET: byte := 0x80

  datatype I2cError = EmptyTransfer | BusError

  // ---- the device ----

  /** How some paged chip reacts: a byte written to or read from a register of
      the current page, and the register that follows in a burst. */
  datatype Chip<!S> = Chip(
    write: (S, byte, byte, byte) -> S,
    read: (S, byte, byte) -> (S, byte),
    next: byte -> byte)

  datatype Device<S> = Device(page: byte, state: S)

  /** Register REG_OFFSET selects the page, on every page. */
  function Store<S>(chip: Chip<S>, d: Device<S>, reg: byte, data: byte): Device<S> {
    if reg == REG_OFFSET then d.(page := data) else d.(state := chip.write(d.state, d.page, reg, data))
  }

  /** One bus write of `reg` followed by data. */
  function Write<S>(chip: Chip<S>, d: Device<S>, reg: byte, data: seq<byte>): Device<S>
    decreases |data|
  {
    if data == [] then d else Write(chip, Store(chip, d, reg, data[0]), chip.next(reg), data[1..])
  }

  /** n bytes read from `reg` on. */
  function Read<S>(chip: Chip<S>, d: Device<S>, reg: byte, n: nat): (r: (Device<S>, seq<byte>))
    ensures |r.1| == n && r.0.page == d.page
    decreases n
  {
    if n == 0 then (d, [])
    else
      var (state, data) := chip.read(d.state, d.page, reg);
      var (d', rest) := Read(chip, d.(state := state), chip.next(reg), n - 1);
      (d', [data] + rest)
  }

  // ---- one access, with and without the cache ----

  datatype Access =
    | Put(offset: byte, reg: byte, data: seq<byte>)
    | Get(offset: byte, reg: byte, count: nat)

  /** The access itself, once the page is selected. */
  function Transfer<S>(chip: Chip<S>, d: Device<S>, a: Access): (Device<S>, seq<byte>) {
    match a
    case Put(_, reg, data) => (Write(chip, d, reg, data), [])
    case Get(_, reg, count) => Read(chip, d, reg, count)
  }

  function Select<S>(chip: Chip<S>, d: Device<S>, offset: byte): Device<S> {
    Write(chip, d, REG_OFFSET, [offset])
  }

  /** The driver that selects the page before every access. */
  function Plain<S>(chip: Chip<S>, d: Device<S>, a: Access): (Device<S>, seq<byte>) {
    Transfer(chip, Select(chip, d, a.offset), a)
  }

  /** Which bus transfers of an access succeed. */
  datatype Io = Io(select: bool, address: bool, data: bool)

  datatype Driver<S> = Driver(oldOffset: byte, device: Device<S>)

  predicate Empty(a: Access) { if a.Put? then a.data == [] else a.count == 0 }

  /** The driver of the source: `old_offset` is set before the select is sent,
      and a failed transfer leaves the device alone. */
  function Cached<S>(chip: Chip<S>, v: Driver<S>, a: Access, io: Io): (Driver<S>, Result<seq<byte>, I2cError>) {
    if Empty(a) then (v, Err(EmptyTransfer))
    else if a.offset != v.oldOffset && !io.select then (v.(oldOffset := a.offset), Err(BusError))
    else
      var d := if a.offset != v.oldOffset then Select(chip, v.device, a.offset) else v.device;
      var selected := Driver(a.offset, d);
      if !io.data || (a.Get? && !io.address) then (selected, Err(BusError))
      else
        var (d', data) := Transfer(chip, d, a);
        (selected.(device := d'), Ok(data))
  }

  /** An empty transfer is refused, and nothing is sent; any other access fails
      exactly when a transfer it makes does: the select of another page than the
      remembered one, the address of a read, the data. */
  lemma {:induction false} OutcomeExactly<S>(chip: Chip<S>, v: Driver<S>, a: Access, io: Io)
    ensures var (after, r) := Cached(chip, v, a, io);
            && (r == Err(EmptyTransfer) <==> Empty(a)) && (Empty(a) ==> after == v)
            && (r == Err(BusError) <==>
                  !Empty(a) && ((a.offset != v.oldOffset && !io.select) || !io.data || (a.Get? && !io.address)))
            && (r.Ok? ==> |r.value| == if a.Get? then a.count else 0)
            && (!Empty(a) ==> after.oldOffset == a.offset)
  {
    hide Read, Write;
  }

  // ---- whole sessions without an error ----

  const FINE := Io(true, true, true)

  function PlainSession<S>(chip: Chip<S>, d: Device<S>, session: seq<Access>, n: nat): (Device<S>, seq<byte>)
    requires n <= |session|
  {
    if n == 0 then (d, [])
    else
      var (before, out) := PlainSession(chip, d, session, n - 1);
      var (after, data) := Plain(chip, before, session[n - 1]);
      (after, out + data)
  }

  function CachedSession<S>(chip: Chip<S>, v: Driver<S>, session: seq<Access>, n: nat): (Driver<S>, seq<byte>)
    requires n <= |session|
  {
    if n == 0 then (v, [])
    else
      var (before, out) := CachedSession(chip, v, session, n - 1);
      var (after, r) := Cached(chip, before, session[n - 1], FINE);
      (after, out + if r.Ok? then r.value else [])
  }

  /** The page a burst of data from `reg` leaves selected. */
  function PageLeft<S>(chip: Chip<S>, page: byte, reg: byte, data: seq<byte>): byte
    decreases |data|
  {
    if data == [] then page
    else PageLeft(chip, if reg == REG_OFFSET then data[0] else page, chip.next(reg), data[1..])
  }

  /** A real access on a real page that leaves this page selected. */
  predicate Tame<S>(chip: Chip<S>, a: Access) {
    !Empty(a) && a.offset != REG_OFFSET && (a.Put? ==> PageLeft(chip, a.offset, a.reg, a.data) == a.offset)
  }

  ghost predicate AllTame<S>(chip: Chip<S>, session: seq<Access>) {
    forall i :: 0 <= i < |session| ==> Tame(chip, session[i])
  }

  /** The cache is empty or right. */
  predicate InStep<S>(v: Driver<S>) { v.oldOffset == REG_OFFSET || v.device.page == v.oldOffset }

  lemma {:induction false} WriteLeavesPage<S>(chip: Chip<S>, d: Device<S>, reg: byte, data: seq<byte>)
    ensures Write(chip, d, reg, data).page == PageLeft(chip, d.page, reg, data)
    decreases |data|
  {
    if data == [] {
    } else {
      WriteLeavesPage(chip, Store(chip, d, reg, data[0]), chip.next(reg), data[1..]);
    }
  }

  lemma {:induction false} SelectSetsPage<S>(chip: Chip<S>, d: Device<S>, offset: byte)
    ensures Select(chip, d, offset) == d.(page := offset)
  {
    assert [offset][1..] == [];
    assert Write(chip, d, REG_OFFSET, [offset]) == Write(chip, d.(page := offset), chip.next(REG_OFFSET), []);
  }

  /** The page on which the access is made, if its select does not fail. */
  function PageUsed<S>(v: Driver<S>, a: Access): byte { if a.offset == v.oldOffset then v.device.page else a.offset }

  /** The page an access leaves selected when it is made on its own page. */
  function PageAfter<S>(chip: Chip<S>, a: Access): byte {
    if a.Put? then PageLeft(chip, a.offset, a.reg, a.data) else a.offset
  }

  predicate Fails(a: Access, io: Io) { !io.data || (a.Get? && !io.address) }

  /** The plain driver on a bus with errors. */
  function PlainIo<S>(chip: Chip<S>, d: Device<S>, a: Access, io: Io): (Device<S>, Result<seq<byte>, I2cError>) {
    if Empty(a) then (d, Err(EmptyTransfer))
    else if !io.select then (d, Err(BusError))
    else if Fails(a, io) then (Select(chip, d, a.offset), Err(BusError))
    else (Plain(chip, d, a).0, Ok(Plain(chip, d, a).1))
  }

  /** A select that is not sent does not fail. */
  predicate Sent<S>(v: Driver<S>, a: Access, io: Io) { a.offset == v.oldOffset ==> io.select }

  /** An access made on its own page does to the device what the plain driver
      does, on any chip and whichever of its transfers fail. */
  lemma {:induction false} AccessAgrees<S>(chip: Chip<S>, v: Driver<S>, a: Access, io: Io)
    requires !Empty(a) && PageUsed(v, a) == a.offset && Sent(v, a, io)
    ensures var (v', r) := Cached(chip, v, a, io);
            && (v'.device, r) == PlainIo(chip, v.device, a, io) && v'.oldOffset == a.offset
            && v'.device.page == if !io.select then v.device.page else if Fails(a, io) then a.offset else PageAfter(chip, a)
  {
    SelectSetsPage(chip, v.device, a.offset);
    var d := v.device.(page := a.offset);
    if a.Put? { WriteLeavesPage(chip, d, a.reg, a.data); }
    assert v.device.page == a.offset ==> d == v.device;
    hide Select, Write, Read, PageLeft;
  }

  lemma {:induction false} InStepIsOnPage<S>(v: Driver<S>, a: Access)
    requires InStep(v) && a.offset != REG_OFFSET
    ensures PageUsed(v, a) == a.offset
  {}

  // ---- sessions without an error: exactly when the pages agree ----

  ghost predicate NoneEmpty(session: seq<Access>) { forall i :: 0 <= i < |session| ==> !Empty(session[i]) }

  /** Access k of an error-free session is made on its own page. */
  predicate OnPage<S>(chip: Chip<S>, v: Driver<S>, session: seq<Access>, k: int)
    requires 0 <= k < |session|
  {
    PageUsed(CachedSession(chip, v, session, k).0, session[k]) == session[k].offset
  }

  ghost predicate AllOnPage<S>(chip: Chip<S>, v: Driver<S>, session: seq<Access>, n: nat)
    requires n <= |session|
  {
    forall k :: 0 <= k < n ==> OnPage(chip, v, session, k)
  }

  /** What access k asks of the one before it: to leave its own page selected,
      unless k names another page. */
  predicate Follows<S>(chip: Chip<S>, v: Driver<S>, session: seq<Access>, k: int)
    requires 0 <= k < |session|
  {
    if k == 0 then session[0].offset != v.oldOffset || v.device.page == session[0].offset
    else session[k].offset != session[k - 1].offset || PageAfter(chip, session[k - 1]) == session[k - 1].offset
  }

  ghost predicate AllFollow<S>(chip: Chip<S>, v: Driver<S>, session: seq<Access>, n: nat)
    requires n <= |session|
  {
    forall k :: 0 <= k < n ==> Follows(chip, v, session, k)
  }

  /** Accesses made on their pages leave the device as the plain driver does,
      and read the same bytes. */
  lemma {:induction false} OnPageAgrees<S>(chip: Chip<S>, v: Driver<S>, session: seq<Access>, n: nat)
    requires n <= |session| && NoneEmpty(session) && AllOnPage(chip, v, session, n)
    ensures var (v', cached) := CachedSession(chip, v, session, n);
            var (d', plain) := PlainSession(chip, v.device, session, n);
            && v'.device == d' && cached == plain
            && (n > 0 ==> v'.oldOffset == session[n - 1].offset && d'.page == PageAfter(chip, session[n - 1]))
  {
    if n == 0 {
    } else {
      OnPageAgrees(chip, v, session, n - 1);
      var a := session[n - 1];
      assert !Empty(a) && OnPage(chip, v, session, n - 1);
      AccessAgrees(chip, CachedSession(chip, v, session, n - 1).0, a, FINE);
      hide Cached, Plain, PageAfter, PageUsed, Empty, AllOnPage, OnPage, NoneEmpty;
    }
  }

  /** Over every error-free session, with any offsets, on any chip: all accesses
      are made on their own pages exactly when the first finds its page, and each
      later one names another page than the one before or that one left its own
      page selected. Then both drivers leave the same device and read the same. */
  lemma {:induction false} PagesAgreeExactly<S>(chip: Chip<S>, v: Driver<S>, session: seq<Access>, n: nat)
    requires n <= |session| && NoneEmpty(session)
    ensures AllOnPage(chip, v, session, n) <==> AllFollow(chip, v, session, n)
    ensures AllFollow(chip, v, session, n) ==>
              var (v', cached) := CachedSession(chip, v, session, n);
              (v'.device, cached) == PlainSession(chip, v.device, session, n)
  {
    if n == 0 {
    } else {
      PagesAgreeExactly(chip, v, session, n - 1);
      if AllOnPage(chip, v, session, n - 1) {
        OnPageAgrees(chip, v, session, n - 1);
        assert OnPage(chip, v, session, n - 1) <==> Follows(chip, v, session, n - 1);
      }
      hide OnPage, Follows;
    }
    if AllOnPage(chip, v, session, n) {
      OnPageAgrees(chip, v, session, n);
    }
  }

  // ---- sessions with errors ----

  /** What the errors of an access spare: the cache stays right. */
  predicate Spared<S>(v: Driver<S>, a: Access, io: Io) {
    io.select || a.offset == v.oldOffset || v.device.page == a.offset
  }

  /** Whatever transfers of a tame access fail, the cache stays right exactly when
      its select is not sent, or succeeds, or the page was selected anyway. */
  lemma {:induction false} StaysInStepExactly<S>(chip: Chip<S>, v: Driver<S>, a: Access, io: Io)
    requires InStep(v) && Tame(chip, a)
    ensures InStep(Cached(chip, v, a, io).0) <==> Spared(v, a, io)
  {
    if io.select || a.offset != v.oldOffset {
      AccessAgrees(chip, v, a, io) by { InStepIsOnPage(v, a); }
    } else {
      AccessAgrees(chip, v, a, io.(select := true)) by { InStepIsOnPage(v, a); }
    }
    hide PlainIo, Cached, PageLeft, Empty;
    assert PageAfter(chip, a) == a.offset;
  }

  /** After a failed select the next read is made on its own page exactly when it
      names another page, or the page was selected anyway. */
  lemma {:induction false} FailedSelectIsRemembered<S>(chip: Chip<S>, v: Driver<S>, a: Access, io: Io, offset: byte, reg: byte)
    requires !Empty(a) && a.offset != v.oldOffset && !io.select
    ensures var (failed, r) := Cached(chip, v, a, io);
            var next := Get(offset, reg, 1);
            && r == Err(BusError)
            && (Cached(chip, failed, next, FINE).0.device.page == Plain(chip, failed.device, next).0.page
                <==> offset != a.offset || v.device.page == a.offset)
  {
    var failed, next := v.(oldOffset := a.offset), Get(offset, reg, 1);
    assert Cached(chip, v, a, io) == (failed, Err(BusError));
    SelectSetsPage(chip, failed.device, offset);
    hide Select, Read, Write;
  }

  /** A chip on which every register reads as the page it is on. */
  function PageChip(): Chip<()> {
    Chip((s, page, reg, data) => s, (s, page, reg) => (s, page), reg => reg)
  }

  lemma {:induction false} PageIsRead(d: Device<()>, reg: byte)
    ensures Read(PageChip(), d, reg, 1).1 == [d.page]
  {
    assert Read(PageChip(), d, reg, 0).1 == [];
  }

  /** On it, a read after a failed select returns bytes of the old page. */
  lemma {:induction false} OldPageIsRead(page: byte, offset: byte, reg: byte)
    requires offset != page
    ensures var v := Driver(page, Device(page, ())); var next := Get(offset, reg, 1);
            var (failed, _) := Cached(PageChip(), v, next, Io(false, true, true));
            && Cached(PageChip(), failed, next, FINE).1 == Ok([page])
            && Plain(PageChip(), failed.device, next).1 == [offset]
  {
    var d := Device(page, ());
    SelectSetsPage(PageChip(), d, offset);
    PageIsRead(d, reg);
    PageIsRead(Select(PageChip(), d, offset), reg);
    hide Select, Read, PageChip;
  }

  function CachedRun<S>(chip: Chip<S>, v: Driver<S>, session: seq<Access>, ios: seq<Io>, n: nat)
    : (Driver<S>, seq<Result<seq<byte>, I2cError>>)
    requires n <= |session| == |ios|
  {
    if n == 0 then (v, [])
    else
      var (before, replies) := CachedRun(chip, v, session, ios, n - 1);
      var (after, r) := Cached(chip, before, session[n - 1], ios[n - 1]);
      (after, replies + [r])
  }

  function PlainRun<S>(chip: Chip<S>, d: Device<S>, session: seq<Access>, ios: seq<Io>, n: nat)
    : (Device<S>, seq<Result<seq<byte>, I2cError>>)
    requires n <= |session| == |ios|
  {
    if n == 0 then (d, [])
    else
      var (before, replies) := PlainRun(chip, d, session, ios, n - 1);
      var (after, r) := PlainIo(chip, before, session[n - 1], ios[n - 1]);
      (after, replies + [r])
  }

  predicate SentAt<S>(chip: Chip<S>, v: Driver<S>, session: seq<Access>, ios: seq<Io>, k: int)
    requires 0 <= k < |session| == |ios|
  {
    Sent(CachedRun(chip, v, session, ios, k).0, session[k], ios[k])
  }

  ghost predicate AllSent<S>(chip: Chip<S>, v: Driver<S>, session: seq<Access>, ios: seq<Io>)
    requires |session| == |ios|
  {
    forall k :: 0 <= k < |session| ==> SentAt(chip, v, session, ios, k)
  }

  predicate InStepAt<S>(chip: Chip<S>, v: Driver<S>, session: seq<Access>, ios: seq<Io>, k: int)
    requires 0 <= k <= |session| == |ios|
  {
    InStep(CachedRun(chip, v, session, ios, k).0)
  }

  /** The cache is right before and after each of the first n accesses. */
  ghost predicate InStepTo<S>(chip: Chip<S>, v: Driver<S>, session: seq<Access>, ios: seq<Io>, n: nat)
    requires n <= |session| == |ios|
  {
    forall k :: 0 <= k <= n ==> InStepAt(chip, v, session, ios, k)
  }

  predicate SparedAt<S>(chip: Chip<S>, v: Driver<S>, session: seq<Access>, ios: seq<Io>, k: int)
    requires 0 <= k < |session| == |ios|
  {
    Spared(CachedRun(chip, v, session, ios, k).0, session[k], ios[k])
  }

  ghost predicate SparedTo<S>(chip: Chip<S>, v: Driver<S>, session: seq<Access>, ios: seq<Io>, n: nat)
    requires n <= |session| == |ios|
  {
    forall k :: 0 <= k < n ==> SparedAt(chip, v, session, ios, k)
  }

  /** Over every session of tame accesses, with any errors: the cache stays right
      exactly as long as no select that is sent fails (or the page was selected
      anyway), and as long as it does both drivers leave the same device and give
      the same replies. */
  lemma {:induction false} SessionsAgree<S>(chip: Chip<S>, v: Driver<S>, session: seq<Access>, ios: seq<Io>, n: nat)
    requires n <= |session| == |ios| && InStep(v) && AllTame(chip, session) && AllSent(chip, v, session, ios)
    ensures InStepTo(chip, v, session, ios, n) <==> SparedTo(chip, v, session, ios, n)
    ensures SparedTo(chip, v, session, ios, n) ==>
              var (v', replies) := CachedRun(chip, v, session, ios, n);
              (v'.device, replies) == PlainRun(chip, v.device, session, ios, n)
  {
    hide Cached, PlainIo, Spared, InStep, Sent, PageUsed, Tame, CachedRun, PlainRun, InStepTo, SparedTo;
    if n == 0 {
      RunStarts(chip, v, session, ios);
    } else {
      RunSteps(chip, v, session, ios, n);
      RightSteps(chip, v, session, ios, n);
      SessionsAgree(chip, v, session, ios, n - 1);
      var a, io, before := session[n - 1], ios[n - 1], CachedRun(chip, v, session, ios, n - 1).0;
      assert Tame(chip, a) && SentAt(chip, v, session, ios, n - 1);
      hide AllTame, AllSent;
      if InStepTo(chip, v, session, ios, n - 1) {
        LastInStep(chip, v, session, ios, n - 1);
        StaysInStepExactly(chip, before, a, io);
        TameIsOnPage(chip, before, a);
        AccessAgrees(chip, before, a, io);
      }
    }
  }

  lemma {:induction false} TameIsOnPage<S>(chip: Chip<S>, v: Driver<S>, a: Access)
    requires InStep(v) && Tame(chip, a)
    ensures PageUsed(v, a) == a.offset && !Empty(a)
  {
    InStepIsOnPage(v, a);
  }

  lemma {:induction false} RunStarts<S>(chip: Chip<S>, v: Driver<S>, session: seq<Access>, ios: seq<Io>)
    requires |session| == |ios|
    ensures CachedRun(chip, v, session, ios, 0) == (v, []) && PlainRun(chip, v.device, session, ios, 0) == (v.device, [])
    ensures InStepTo(chip, v, session, ios, 0) <==> InStep(v)
    ensures SparedTo(chip, v, session, ios, 0)
  {
    assert InStepAt(chip, v, session, ios, 0) <==> InStep(v);
    hide InStep;
  }

  lemma {:induction false} LastInStep<S>(chip: Chip<S>, v: Driver<S>, session: seq<Access>, ios: seq<Io>, n: nat)
    requires n <= |session| == |ios| && InStepTo(chip, v, session, ios, n)
    ensures InStep(CachedRun(chip, v, session, ios, n).0)
  {
    assert InStepAt(chip, v, session, ios, n);
    hide InStep, CachedRun;
  }

  lemma {:induction false} RunSteps<S>(chip: Chip<S>, v: Driver<S>, session: seq<Access>, ios: seq<Io>, n: nat)
    requires 0 < n <= |session| == |ios|
    ensures var (before, replies) := CachedRun(chip, v, session, ios, n - 1);
            var (after, r) := Cached(chip, before, session[n - 1], ios[n - 1]);
            CachedRun(chip, v, session, ios, n) == (after, replies + [r])
    ensures var (before, replies) := PlainRun(chip, v.device, session, ios, n - 1);
            var (after, r) := PlainIo(chip, before, session[n - 1], ios[n - 1]);
            PlainRun(chip, v.device, session, ios, n) == (after, replies + [r])
  {
    hide Cached, PlainIo;
  }

  lemma {:induction false} RightSteps<S>(chip: Chip<S>, v: Driver<S>, session: seq<Access>, ios: seq<Io>, n: nat)
    requires 0 < n <= |session| == |ios|
    ensures InStepTo(chip, v, session, ios, n)
            <==> InStepTo(chip, v, session, ios, n - 1) && InStep(CachedRun(chip, v, session, ios, n).0)
    ensures SparedTo(chip, v, session, ios, n)
            <==> SparedTo(chip, v, session, ios, n - 1) && Spared(CachedRun(chip, v, session, ios, n - 1).0, session[n - 1], ios[n - 1])
  {
    assert InStepAt(chip, v, session, ios, n) <==> InStep(CachedRun(chip, v, session, ios, n).0);
    assert SparedAt(chip, v, session, ios, n - 1)
      <==> Spared(CachedRun(chip, v, session, ios, n - 1).0, session[n - 1], ios[n - 1]);
    hide CachedRun, Spared, InStep, InStepAt, SparedAt;
  }

  /** Without errors, in particular, tame sessions agree. */
  lemma {:induction false} TameSessionsAgree<S>(chip: Chip<S>, v: Driver<S>, session: seq<Access>)
    requires InStep(v) && AllTame(chip, session)
    ensures var (v', cached) := CachedSession(chip, v, session, |session|);
            (v'.device, cached) == PlainSession(chip, v.device, session, |session|)
  {
    forall k | 0 <= k < |session| ensures Follows(chip, v, session, k) && !Empty(session[k]) {
      assert Tame(chip, session[k]);
      assert k > 0 ==> Tame(chip, session[k - 1]);
    }
    PagesAgreeExactly(chip, v, session, |session|);
    hide CachedSession, PlainSession, Follows, Empty;
  }

  // ---- the EDID reads ----

  datatype ChipVersion = Lt6911Uxc | Lt6911C

  const EDID_BUFFER_SIZE := 256

  function WrSize(v: ChipVersion): (size: nat)
    ensures size == 32 || size == 16
  {
    if v.Lt6911Uxc? then 32 else 16
  }

  function SysWrite(reg: byte, data: byte): Access { Put(SYS_OFFSET, reg, [data]) }

  /** Both chips go through the same registers; register 0x5A idles at 0x80 or 0x82. */
  function Prologue(v: ChipVersion): seq<Access> {
    var idle: byte := if v.Lt6911Uxc? then 0x80 else 0x82;
    [SysWrite(0xFF, 0x80), SysWrite(0xEE, 0x01), SysWrite(0x5A, idle + 4), SysWrite(0x5A, idle)]
  }

  function Setup(v: ChipVersion): seq<Access> {
    var idle: byte := if v.Lt6911Uxc? then 0x80 else 0x82;
    [SysWrite(0x5E, if v.Lt6911Uxc? then 0x5F else 0x6F), SysWrite(0x5A, idle + 0x20), SysWrite(0x5A, idle),
     SysWrite(0x5B, 0x01), SysWrite(0x5C, 0x80)]
  }

  function Fetch(v: ChipVersion): seq<Access> {
    var idle: byte := if v.Lt6911Uxc? then 0x80 else 0x82;
    [SysWrite(0x5A, idle + 0x10), SysWrite(0x5A, idle), SysWrite(0x58, if v.Lt6911Uxc? then 0x21 else 0x01)]
  }

  /** The accesses that read chunk i: its address goes to register 0x5D. */
  function Chunk(v: ChipVersion, i: nat): seq<Access> {
    Setup(v) + [SysWrite(0x5D, WrSize(v) * i % 256)] + Fetch(v) + [Get(SYS_OFFSET, 0x5F, WrSize(v))]
  }

  // The two read functions as the source lists them, chip by chip.

  const OPENING_UXC: seq<(byte, byte)> := [(0xFF, 0x80), (0xEE, 0x01), (0x5A, 0x84), (0x5A, 0x80)]
  const OPENING_C: seq<(byte, byte)> := [(0xFF, 0x80), (0xEE, 0x01), (0x5A, 0x86), (0x5A, 0x82)]

  function ChunkWrites(v: ChipVersion, i: nat): seq<(byte, byte)> {
    match v
    case Lt6911Uxc =>
      [(0x5E, 0x5F), (0x5A, 0xA0), (0x5A, 0x80), (0x5B, 0x01), (0x5C, 0x80), (0x5D, 32 * i % 256), (0x5A, 0x90), (0x5A, 0x80), (0x58, 0x21)]
    case Lt6911C =>
      [(0x5E, 0x6F), (0x5A, 0xA2), (0x5A, 0x82), (0x5B, 0x01), (0x5C, 0x80), (0x5D, 16 * i % 256), (0x5A, 0x92), (0x5A, 0x82), (0x58, 0x01)]
  }

  /** The register and the byte of each write on the system page. */
  predicate Writes(session: seq<Access>, writes: seq<(byte, byte)>) {
    |session| == |writes| && forall k :: 0 <= k < |writes| ==> session[k] == Put(0x80, writes[k].0, [writes[k].1])
  }

  /** The common form is what each chip's function does, write by write; every bit
      raised in register 0x5A is lowered by the next write to it. */
  lemma {:induction false} SessionIsAsListed(v: ChipVersion, i: nat)
    ensures Writes(Prologue(v), if v.Lt6911Uxc? then OPENING_UXC else OPENING_C)
    ensures |Chunk(v, i)| == 10 && Writes(Chunk(v, i)[..9], ChunkWrites(v, i))
    ensures Chunk(v, i)[9] == Get(0x80, 0x5F, if v.Lt6911Uxc? then 32 else 16)
  {}

  function EdidSession(v: ChipVersion, chunks: nat): seq<Access> {
    if chunks == 0 then Prologue(v) else EdidSession(v, chunks - 1) + Chunk(v, chunks - 1)
  }

  lemma {:induction false} SessionGrows(v: ChipVersion, i: nat)
    ensures EdidSession(v, 0) == Prologue(v) && EdidSession(v, i + 1) == EdidSession(v, i) + Chunk(v, i)
  {
    hide Prologue, Chunk;
  }

  lemma {:induction false} ChunkParts(v: ChipVersion, i: nat, before: seq<Access>)
    ensures before + Setup(v) + ([SysWrite(0x5D, WrSize(v) * i % 256)] + Fetch(v)) + [Get(SYS_OFFSET, 0x5F, WrSize(v))]
         == before + Chunk(v, i)
  {}

  lemma {:induction false} EdidSessionIsTame<S>(chip: Chip<S>, v: ChipVersion, chunks: nat)
    ensures AllTame(chip, EdidSession(v, chunks))
  {
    if chunks == 0 {
      SysWritesAreTame(chip, Prologue(v));
    } else {
      EdidSessionIsTame(chip, v, chunks - 1);
      ChunkIsTame(chip, v, chunks - 1);
    }
    hide Tame, Chunk, Prologue;
  }

  lemma {:induction false} SysWriteIsTame<S>(chip: Chip<S>, reg: byte, data: byte)
    requires reg == REG_OFFSET ==> data == SYS_OFFSET
    ensures Tame(chip, SysWrite(reg, data))
  {
    assert [data][1..] == [];
    var page := if reg == REG_OFFSET then data else SYS_OFFSET;
    assert PageLeft(chip, SYS_OFFSET, reg, [data]) == PageLeft(chip, page, chip.next(reg), []);
  }

  lemma {:induction false} SysWritesAreTame<S>(chip: Chip<S>, session: seq<Access>)
    requires forall i :: 0 <= i < |session| ==> IsSysWrite(session[i])
    ensures AllTame(chip, session)
  {
    forall i | 0 <= i < |session| ensures Tame(chip, session[i]) {
      assert IsSysWrite(session[i]);
      SysWriteIsTame(chip, session[i].reg, session[i].data[0]);
      assert session[i].data == [session[i].data[0]];
    }
  }

  predicate IsSysWrite(a: Access) {
    a.Put? && a.offset == SYS_OFFSET && |a.data| == 1 && (a.reg == REG_OFFSET ==> a.data[0] == SYS_OFFSET)
  }

  lemma {:induction false} ChunkIsTame<S>(chip: Chip<S>, v: ChipVersion, i: nat)
    ensures AllTame(chip, Chunk(v, i))
  {
    var address := [SysWrite(0x5D, WrSize(v) * i % 256)];
    SysWritesAreTame(chip, Setup(v));
    SysWritesAreTame(chip, address);
    SysWritesAreTame(chip, Fetch(v));
    assert Tame(chip, Get(SYS_OFFSET, 0x5F, WrSize(v)));
    hide Setup, Fetch, Tame, WrSize;
  }

  /** Both read loops keep to tame accesses, so the cache does not show. */
  lemma {:induction false} EdidSessionAgrees<S>(chip: Chip<S>, driver: Driver<S>, v: ChipVersion, chunks: nat)
    requires InStep(driver)
    ensures var session := EdidSession(v, chunks);
            var (v', cached) := CachedSession(chip, driver, session, |session|);
            (v'.device, cached) == PlainSession(chip, driver.device, session, |session|)
  {
    EdidSessionIsTame(chip, v, chunks);
    TameSessionsAgree(chip, driver, EdidSession(v, chunks));
  }

  // ---- the driver ----

  lemma {:induction false} SessionPrefix<S>(chip: Chip<S>, v: Driver<S>, session: seq<Access>, a: Access, n: nat)
    requires n <= |session|
    ensures CachedSession(chip, v, session + [a], n) == CachedSession(chip, v, session, n)
  {
    if n == 0 {
    } else {
      SessionPrefix(chip, v, session, a, n - 1);
    }
  }

  lemma {:induction false} SessionGoesOn<S>(chip: Chip<S>, v: Driver<S>, session: seq<Access>, a: Access, io: Io)
    requires Cached(chip, CachedSession(chip, v, session, |session|).0, a, io).1.Ok?
    ensures var (before, out) := CachedSession(chip, v, session, |session|);
            var (after, r) := Cached(chip, before, a, io);
            CachedSession(chip, v, session + [a], |session| + 1) == (after, out + r.value)
  {
    SessionPrefix(chip, v, session, a, |session|);
    hide Transfer, Select;
  }

  class Lt6911I2c<!S> {
    const chip: Chip<S>
    /** The device behind the bus. */
    var client: Device<S>
    var oldOffset: byte
    /** The accesses made since the driver was opened, and the bytes read. */
    ghost const start: Driver<S>
    ghost var session: seq<Access>
    ghost var received: seq<byte>

    constructor (chip: Chip<S>, client: Device<S>)
      ensures this.chip == chip && View() == Driver(0xFF, client)
      ensures start == View() && session == [] && received == [] && Faultless()
    {
      this.chip, this.client, oldOffset := chip, client, 0xFF;
      start, session, received := Driver(0xFF, client), [], [];
    }

    ghost function View(): Driver<S>
      reads this
    {
      Driver(oldOffset, client)
    }

    /** No access has failed so far. */
    ghost predicate Faultless()
      reads this
    {
      (View(), received) == CachedSession(chip, start, session, |session|)
    }

    method I2cWriteBytes(offset: byte, reg: byte, data: seq<byte>, io: Io) returns (r: Result<seq<byte>, I2cError>)
      modifies this
      ensures (View(), r) == Cached(chip, old(View()), Put(offset, reg, data), io)
      ensures old(Faultless()) && r.Ok? ==>
                Faultless() && session == old(session) + [Put(offset, reg, data)] && received == old(received)
    {
      if data == [] {
        return Err(EmptyTransfer);
      }
      if offset != oldOffset {
        oldOffset := offset;
        if !io.select {
          return Err(BusError);
        }
        client := Write(chip, client, REG_OFFSET, [offset]);
      }
      if !io.data {
        return Err(BusError);
      }
      client := Write(chip, client, reg, data);
      r := Ok([]);
      Log(old(View()), Put(offset, reg, data), io, []);
    }

    ghost method Log(before: Driver<S>, a: Access, io: Io, data: seq<byte>)
      requires (View(), Ok(data)) == Cached(chip, before, a, io)
      modifies this`session, this`received
      ensures session == old(session) + [a] && received == old(received) + data
      ensures (before, old(received)) == CachedSession(chip, start, old(session), |old(session)|) ==> Faultless()
    {
      if (before, received) == CachedSession(chip, start, session, |session|) {
        SessionGoesOn(chip, start, session, a, io);
      }
      hide Cached;
      session := session + [a];
      received := received + data;
    }

    method I2cWriteByte(offset: byte, reg: byte, data: byte, io: Io) returns (r: Result<seq<byte>, I2cError>)
      modifies this
      ensures (View(), r) == Cached(chip, old(View()), Put(offset, reg, [data]), io)
      ensures io == FINE ==> r.Ok?
      ensures old(Faultless()) && r.Ok? ==>
                Faultless() && session == old(session) + [Put(offset, reg, [data])] && received == old(received)
    {
      if offset != oldOffset {
        oldOffset := offset;
        if !io.select {
          return Err(BusError);
        }
        client := Write(chip, client, REG_OFFSET, [offset]);
      }
      if !io.data {
        return Err(BusError);
      }
      client := Write(chip, client, reg, [data]);
      r := Ok([]);
      Log(old(View()), Put(offset, reg, [data]), io, []);
    }

    method I2cReadBytes(offset: byte, reg: byte, count: nat, io: Io) returns (r: Result<seq<byte>, I2cError>)
      modifies this
      ensures (View(), r) == Cached(chip, old(View()), Get(offset, reg, count), io)
      ensures io == FINE && count > 0 ==> r.Ok?
      ensures r.Ok? ==> |r.value| == count > 0
      ensures old(Faultless()) && r.Ok? ==>
                Faultless() && session == old(session) + [Get(offset, reg, count)] && received == old(received) + r.value
    {
      if count == 0 {
        return Err(EmptyTransfer);
      }
      if offset != oldOffset {
        oldOffset := offset;
        if !io.select {
          return Err(BusError);
        }
        client := Write(chip, client, REG_OFFSET, [offset]);
      }
      if !io.address || !io.data {
        return Err(BusError);
      }
      var (d, data) := Read(chip, client, reg, count);
      client := d;
      r := Ok(data);
      Log(old(View()), Get(offset, reg, count), io, data);
    }

    method BeginEdidRead(v: ChipVersion, io: nat -> Io) returns (r: Result<seq<byte>, I2cError>)
      modifies this
      ensures old(Faultless()) && r.Ok? ==>
                Faultless() && session == old(session) + Prologue(v) && received == old(received)
      ensures (forall k :: io(k) == FINE) ==> r.Ok?
    {
      hide Faultless, CachedSession, Cached;
      var idle: byte := if v.Lt6911Uxc? then 0x80 else 0x82;
      r := I2cWriteByte(SYS_OFFSET, 0xFF, 0x80, io(0));
      if r.Err? { return; }
      r := I2cWriteByte(SYS_OFFSET, 0xEE, 0x01, io(1));
      if r.Err? { return; }
      r := I2cWriteByte(SYS_OFFSET, 0x5A, idle + 4, io(2));
      if r.Err? { return; }
      r := I2cWriteByte(SYS_OFFSET, 0x5A, idle, io(3));
    }

    method SetUpChunk(v: ChipVersion, io: nat -> Io) returns (r: Result<seq<byte>, I2cError>)
      modifies this
      ensures old(Faultless()) && r.Ok? ==>
                Faultless() && session == old(session) + Setup(v) && received == old(received)
      ensures (forall k :: io(k) == FINE) ==> r.Ok?
    {
      hide Faultless, CachedSession, Cached;
      var idle: byte := if v.Lt6911Uxc? then 0x80 else 0x82;
      r := I2cWriteByte(SYS_OFFSET, 0x5E, if v.Lt6911Uxc? then 0x5F else 0x6F, io(0));
      if r.Err? { return; }
      r := I2cWriteByte(SYS_OFFSET, 0x5A, idle + 0x20, io(1));
      if r.Err? { return; }
      r := I2cWriteByte(SYS_OFFSET, 0x5A, idle, io(2));
      if r.Err? { return; }
      r := I2cWriteByte(SYS_OFFSET, 0x5B, 0x01, io(3));
      if r.Err? { return; }
      r := I2cWriteByte(SYS_OFFSET, 0x5C, 0x80, io(4));
    }

    method FetchChunk(v: ChipVersion, i: nat, io: nat -> Io) returns (r: Result<seq<byte>, I2cError>)
      modifies this
      ensures old(Faultless()) && r.Ok? ==>
                Faultless() && session == old(session) + ([SysWrite(0x5D, WrSize(v) * i % 256)] + Fetch(v)) && received == old(received)
      ensures (forall k :: io(k) == FINE) ==> r.Ok?
    {
      hide Faultless, CachedSession, Cached, WrSize;
      var idle: byte := if v.Lt6911Uxc? then 0x80 else 0x82;
      var address: byte := WrSize(v) * i % 256;
      r := I2cWriteByte(SYS_OFFSET, 0x5D, address, io(0));
      if r.Err? { return; }
      r := I2cWriteByte(SYS_OFFSET, 0x5A, idle + 0x10, io(1));
      if r.Err? { return; }
      r := I2cWriteByte(SYS_OFFSET, 0x5A, idle, io(2));
      if r.Err? { return; }
      r := I2cWriteByte(SYS_OFFSET, 0x58, if v.Lt6911Uxc? then 0x21 else 0x01, io(3));
    }

    method ReadChunk(v: ChipVersion, i: nat, io: nat -> Io) returns (r: Result<seq<byte>, I2cError>)
      modifies this
      ensures old(Faultless()) && r.Ok? ==>
                Faultless() && session == old(session) + Chunk(v, i) && received == old(received) + r.value
      ensures r.Ok? ==> |r.value| == WrSize(v)
      ensures (forall k :: io(k) == FINE) ==> r.Ok?
    {
      ChunkParts(v, i, session);
      hide Faultless, CachedSession, Cached, Setup, Fetch, WrSize, Chunk;
      r := SetUpChunk(v, io);
      if r.Err? { return; }
      r := FetchChunk(v, i, (n: nat) => io(n + 5));
      if r.Err? { return; }
      r := I2cReadBytes(SYS_OFFSET, 0x5F, WrSize(v), io(9));
    }

    /** As `open` leaves the driver. */
    ghost predicate Opened()
      reads this
    {
      start.oldOffset == REG_OFFSET && session == [] && received == [] && Faultless()
    }

    /** `lt6911uxc_edid_read` and `lt6911c_edid_read`, which differ in constants
        only: on success the buffer holds, chunk after chunk, what the plain
        driver would have read. */
    method EdidRead(v: ChipVersion, edidData: array<byte>, io: (nat, nat) -> Io) returns (r: Result<seq<byte>, I2cError>)
      requires Opened()
      modifies this, edidData
      ensures var session := EdidSession(v, edidData.Length / WrSize(v));
              var (device, out) := PlainSession(chip, old(client), session, |session|);
              r.Ok? ==> client == device && |out| == WrSize(v) * (edidData.Length / WrSize(v))
                        && Filled(edidData[..], old(edidData[..]), out)
      ensures (forall j, k :: io(j, k) == FINE) ==> r.Ok?
    {
      ghost var was := edidData[..];
      var wrCount := edidData.Length / WrSize(v);
      FaultlessSession();
      EdidSessionAgrees(chip, start, v, wrCount);
      SessionGrows(v, 0);
      hide Faultless, CachedSession, PlainSession, Cached, Prologue, EdidSession, WrSize, Chunk, Filled;
      FilledNothing(was);
      r := BeginEdidRead(v, (n: nat) => io(0, n));
      if r.Err? { return; }
      ChunksFit(WrSize(v), edidData.Length);
      r := ReadChunks(v, edidData, wrCount, io);
      if r.Err? { return; }
      FaultlessSession();
    }

    method ReadChunks(v: ChipVersion, edidData: array<byte>, wrCount: nat, io: (nat, nat) -> Io)
      returns (r: Result<seq<byte>, I2cError>)
      requires Faultless() && session == EdidSession(v, 0) && received == []
      requires Base(v, wrCount) <= edidData.Length
      modifies this, edidData
      ensures r.Ok? ==>
                && Faultless() && session == EdidSession(v, wrCount)
                && |received| == Base(v, wrCount) && Filled(edidData[..], old(edidData[..]), received)
      ensures (forall j, k :: io(j, k) == FINE) ==> r.Ok?
    {
      ghost var was := edidData[..];
      hide Faultless, CachedSession, Cached, Prologue, EdidSession, WrSize, Chunk, Filled, Base;
      FilledNothing(was);
      NoBase(v);
      r := Ok([]);
      for i := 0 to wrCount
        invariant Faultless() && session == EdidSession(v, i) && r.Ok?
        invariant |received| == Base(v, i) && Filled(edidData[..], was, received)
      {
        var base := Base(v, i);
        ChunkFits(v, i, wrCount);
        SessionGrows(v, i);
        r := ReadInto(v, i, edidData, base, was, (n: nat) => io(i + 1, n));
        if r.Err? { return; }
      }
    }

    /** Chunk i, read into its place in the buffer. */
    method ReadInto(v: ChipVersion, i: nat, edidData: array<byte>, base: nat, ghost was: seq<byte>, io: nat -> Io)
      returns (r: Result<seq<byte>, I2cError>)
      requires Faultless() && base + WrSize(v) <= edidData.Length
      requires |received| == base && Filled(edidData[..], was, received)
      modifies this, edidData
      ensures r.Ok? ==>
                && Faultless() && session == old(session) + Chunk(v, i)
                && |received| == base + WrSize(v) && Filled(edidData[..], was, received)
      ensures (forall k :: io(k) == FINE) ==> r.Ok?
    {
      hide Faultless, CachedSession, Cached, WrSize, Chunk;
      ghost var out, now := received, edidData[..];
      r := ReadChunk(v, i, io);
      if r.Err? { return; }
      FilledMore(now, was, out, r.value);
      hide Filled;
      CopyInto(edidData, base, r.value);
    }

    lemma {:induction false} FaultlessSession()
      requires Faultless()
      ensures (View(), received) == CachedSession(chip, start, session, |session|)
      ensures session == [] ==> View() == start
    {}
  }

  /** Filling `edid_data[base..base + data.len()]`. */
  method CopyInto(edidData: array<byte>, base: nat, data: seq<byte>)
    requires base + |data| <= edidData.Length
    modifies edidData
    ensures edidData[..] == Patched(old(edidData[..]), base, data)
  {
    forall k | 0 <= k < |data| {
      edidData[base + k] := data[k];
    }
  }

  function Patched(was: seq<byte>, base: nat, data: seq<byte>): seq<byte>
    requires base + |data| <= |was|
  {
    was[..base] + data + was[base + |data|..]
  }

  /** The front of the buffer holds out, the rest is untouched. */
  predicate Filled(now: seq<byte>, was: seq<byte>, out: seq<byte>) {
    |out| <= |was| && now == out + was[|out|..]
  }

  lemma {:induction false} FilledNothing(was: seq<byte>)
    ensures Filled(was, was, [])
  {
    assert was == [] + was[0..];
  }

  lemma {:induction false} FilledMore(now: seq<byte>, was: seq<byte>, out: seq<byte>, data: seq<byte>)
    requires Filled(now, was, out) && |out| + |data| <= |was|
    ensures |now| == |was| && Filled(Patched(now, |out|, data), was, out + data)
  {
    assert now[..|out|] == out;
    assert now[|out| + |data|..] == was[|out| + |data|..];
  }

  lemma {:induction false} ChunksFit(size: nat, length: nat)
    requires size > 0
    ensures size * (length / size) <= length
  {}

  /** Where chunk i goes in the buffer. */
  function Base(v: ChipVersion, i: nat): nat { WrSize(v) * i }

  lemma {:induction false} NoBase(v: ChipVersion)
    ensures Base(v, 0) == 0
  {}

  lemma {:induction false} ChunkFits(v: ChipVersion, i: nat, count: nat)
    requires i < count
    ensures Base(v, i + 1) == Base(v, i) + WrSize(v) <= Base(v, count)
  {
    assert WrSize(v) * (i + 1) <= WrSize(v) * count;
  }

  // ---- a receiver that serves its EDID ----

  datatype EdidStore = EdidStore(memory: seq<byte>, address: byte)

  /** Register 0x5D sets the address, register 0x5F reads on from there. */
  function EdidChip(): Chip<EdidStore> {
    Chip(
      (s: EdidStore, page: byte, reg: byte, data: byte) =>
        if page == SYS_OFFSET && reg == 0x5D then s.(address := data) else s,
      (s: EdidStore, page: byte, reg: byte) =>
        if page == SYS_OFFSET && reg == 0x5F && s.address < |s.memory|
        then (s.(address := (s.address + 1) % 256), s.memory[s.address]) else (s, 0),
      (reg: byte) => reg)
  }

  lemma {:induction false} SessionFront<S>(chip: Chip<S>, d: Device<S>, a: seq<Access>, b: seq<Access>, n: nat)
    requires n <= |a|
    ensures PlainSession(chip, d, a + b, n) == PlainSession(chip, d, a, n)
  {
    if n == 0 {
    } else {
      SessionFront(chip, d, a, b, n - 1);
      assert (a + b)[n - 1] == a[n - 1];
      hide Plain;
    }
  }

  /** A session of two parts. */
  lemma {:induction false} SessionJoins<S>(chip: Chip<S>, d: Device<S>, a: seq<Access>, b: seq<Access>, n: nat)
    requires n <= |b|
    ensures var (mid, out) := PlainSession(chip, d, a, |a|);
            var (end, more) := PlainSession(chip, mid, b, n);
            PlainSession(chip, d, a + b, |a| + n) == (end, out + more)
  {
    if n == 0 {
      SessionFront(chip, d, a, b, |a|);
      var (mid, out) := PlainSession(chip, d, a, |a|);
      assert out + [] == out;
    } else {
      SessionJoins(chip, d, a, b, n - 1);
      assert (a + b)[|a| + n - 1] == b[n - 1];
      var (mid, out) := PlainSession(chip, d, a, |a|);
      var (before, more) := PlainSession(chip, mid, b, n - 1);
      var (end, data) := Plain(chip, before, b[n - 1]);
      assert out + (more + data) == (out + more) + data;
      hide Plain;
    }
  }

  lemma {:induction false} Continues<S>(
    chip: Chip<S>, d: Device<S>, a: seq<Access>, b: seq<Access>, mid: Device<S>, out: seq<byte>, end: Device<S>, more: seq<byte>)
    requires PlainSession(chip, d, a, |a|) == (mid, out) && PlainSession(chip, mid, b, |b|) == (end, more)
    ensures PlainSession(chip, d, a + b, |a + b|) == (end, out + more)
  {
    SessionJoins(chip, d, a, b, |b|);
  }

  lemma {:induction false} PlainSysWrite(d: Device<EdidStore>, a: Access)
    requires IsSysWrite(a)
    ensures Plain(EdidChip(), d, a)
         == (Device(SYS_OFFSET, if a.reg == 0x5D then d.state.(address := a.data[0]) else d.state), [])
  {
    var chip := EdidChip();
    SelectSetsPage(chip, d, SYS_OFFSET);
    var selected := d.(page := SYS_OFFSET);
    assert a.data == [a.data[0]] && a.data[1..] == [];
    assert Write(chip, selected, a.reg, a.data) == Write(chip, Store(chip, selected, a.reg, a.data[0]), a.reg, []);
    hide Select;
  }

  /** Writes that do not set the address change nothing. */
  lemma {:induction false} QuietWrites(d: Device<EdidStore>, session: seq<Access>, n: nat)
    requires n <= |session| && d.page == SYS_OFFSET
    requires forall i :: 0 <= i < |session| ==> IsSysWrite(session[i]) && session[i].reg != 0x5D
    ensures PlainSession(EdidChip(), d, session, n) == (d, [])
  {
    if n == 0 {
    } else {
      QuietWrites(d, session, n - 1);
      PlainSysWrite(d, session[n - 1]);
      assert d == Device(SYS_OFFSET, d.state);
      var none: seq<byte> := [];
      assert none + none == none;
      hide Plain, IsSysWrite;
    }
  }

  lemma {:induction false} ReadsFirst(d: Device<EdidStore>, n: nat)
    requires n > 0 && d.page == SYS_OFFSET && |d.state.memory| == 256
    ensures var next := d.(state := d.state.(address := (d.state.address + 1) % 256));
            var (d', rest) := Read(EdidChip(), next, 0x5F, n - 1);
            Read(EdidChip(), d, 0x5F, n) == (d', [d.state.memory[d.state.address]] + rest)
  {}

  lemma {:induction false} ReadsOn(d: Device<EdidStore>, n: nat)
    requires d.page == SYS_OFFSET && |d.state.memory| == 256 && d.state.address + n <= 256
    ensures var (d', out) := Read(EdidChip(), d, 0x5F, n);
            d'.state.memory == d.state.memory && out == d.state.memory[d.state.address..d.state.address + n]
    decreases n
  {
    hide Read, EdidChip;
    if n == 0 {
      ReadsNothing(d);
    } else {
      var m, at := d.state.memory, d.state.address;
      ReadsFirst(d, n);
      ReadsOn(d.(state := d.state.(address := (at + 1) % 256)), n - 1);
      SliceHead(m, at, at + n);
    }
  }

  lemma {:induction false} ReadsNothing(d: Device<EdidStore>)
    ensures Read(EdidChip(), d, 0x5F, 0) == (d, [])
  {}

  lemma {:induction false} SliceHead(s: seq<byte>, i: nat, j: nat)
    requires i < j <= |s|
    ensures s[i..j] == [s[i]] + s[i + 1..j]
  {}

  lemma {:induction false} OneAccess<S>(chip: Chip<S>, d: Device<S>, a: Access)
    ensures PlainSession(chip, d, [a], 1) == Plain(chip, d, a)
  {
    assert PlainSession(chip, d, [a], 0) == (d, []);
    var (after, data) := Plain(chip, d, a);
    assert [] + data == data;
  }

  lemma {:induction false} AddressIsSet(d: Device<EdidStore>, address: byte)
    ensures PlainSession(EdidChip(), d, [SysWrite(0x5D, address)], 1)
         == (Device(SYS_OFFSET, d.state.(address := address)), [])
  {
    PlainSysWrite(d, SysWrite(0x5D, address));
    OneAccess(EdidChip(), d, SysWrite(0x5D, address));
  }

  lemma {:induction false} ChunkIsServed(d: Device<EdidStore>, size: nat)
    requires d.page == SYS_OFFSET && |d.state.memory| == 256 && d.state.address + size <= 256
    ensures var (d', out) := PlainSession(EdidChip(), d, [Get(SYS_OFFSET, 0x5F, size)], 1);
            d'.page == SYS_OFFSET && d'.state.memory == d.state.memory
            && out == d.state.memory[d.state.address..d.state.address + size]
  {
    var chip, read := EdidChip(), Get(SYS_OFFSET, 0x5F, size);
    SelectSetsPage(chip, d, SYS_OFFSET);
    assert d.(page := SYS_OFFSET) == d;
    OneAccess(chip, d, read);
    ReadsOn(d, size);
    hide EdidChip;
  }

  lemma {:induction false} SetUpAndFetchAreQuiet(d: Device<EdidStore>, v: ChipVersion)
    requires d.page == SYS_OFFSET
    ensures PlainSession(EdidChip(), d, Setup(v), |Setup(v)|) == (d, [])
    ensures PlainSession(EdidChip(), d, Fetch(v), |Fetch(v)|) == (d, [])
  {
    hide EdidChip, PlainSession;
    QuietWrites(d, Setup(v), |Setup(v)|);
    QuietWrites(d, Fetch(v), |Fetch(v)|);
  }

  /** A session of four parts, of which the last reads. */
  lemma {:induction false} FourParts<S>(
    chip: Chip<S>, d: Device<S>, at: Device<S>, a: seq<Access>, b: seq<Access>, c: seq<Access>, e: seq<Access>)
    requires PlainSession(chip, d, a, |a|) == (d, []) && PlainSession(chip, d, b, |b|) == (at, [])
    requires PlainSession(chip, at, c, |c|) == (at, [])
    ensures PlainSession(chip, d, a + b + c + e, |a + b + c + e|) == PlainSession(chip, at, e, |e|)
  {
    hide PlainSession;
    var none: seq<byte> := [];
    var (end, data) := PlainSession(chip, at, e, |e|);
    assert none + none == none && none + data == data;
    Continues(chip, d, a, b, d, none, at, none);
    Continues(chip, d, a + b, c, at, none, at, none);
    Continues(chip, d, a + b + c, e, at, none, end, data);
  }

  lemma {:induction false} ChunkIsParts(v: ChipVersion, i: nat, base: byte)
    requires base == WrSize(v) * i
    ensures Chunk(v, i) == Setup(v) + [SysWrite(0x5D, base)] + Fetch(v) + [Get(SYS_OFFSET, 0x5F, WrSize(v))]
  {
    assert base % 256 == base;
    hide Setup, Fetch, WrSize, SysWrite;
  }

  lemma {:induction false} ChunkReads(d: Device<EdidStore>, v: ChipVersion, i: nat, base: nat)
    requires base == WrSize(v) * i && base + WrSize(v) <= 256
    requires d.page == SYS_OFFSET && |d.state.memory| == 256
    ensures var (d', out) := PlainSession(EdidChip(), d, Chunk(v, i), |Chunk(v, i)|);
            d'.page == SYS_OFFSET && d'.state.memory == d.state.memory && out == d.state.memory[base..base + WrSize(v)]
  {
    hide *;
    var address, read := [SysWrite(0x5D, base)], [Get(SYS_OFFSET, 0x5F, WrSize(v))];
    var at := Device(SYS_OFFSET, d.state.(address := base));
    ChunkIsParts(v, i, base);
    SetUpAndFetchAreQuiet(d, v);
    AddressIsSet(d, base);
    SetUpAndFetchAreQuiet(at, v);
    FourParts(EdidChip(), d, at, Setup(v), address, Fetch(v), read);
    ChunkIsServed(at, WrSize(v));
  }

  /** The loop has read the first chunks of the memory, in order. */
  predicate ReadInOrder(d: Device<EdidStore>, v: ChipVersion, chunks: nat) {
    var session := EdidSession(v, chunks);
    var (d', out) := PlainSession(EdidChip(), d, session, |session|);
    d'.page == SYS_OFFSET && d'.state.memory == d.state.memory && |out| == WrSize(v) * chunks && out <= d.state.memory
  }

  lemma {:induction false} PrefixJoins(s: seq<byte>, out: seq<byte>, more: seq<byte>, i: nat, n: nat)
    requires i + n <= |s| && out <= s && |out| == i && more == s[i..i + n]
    ensures out + more <= s && |out + more| == i + n
  {}

  lemma {:induction false} NextChunkInOrder(d: Device<EdidStore>, v: ChipVersion, chunks: nat)
    requires |d.state.memory| == EDID_BUFFER_SIZE && WrSize(v) * chunks + WrSize(v) <= EDID_BUFFER_SIZE
    requires ReadInOrder(d, v, chunks)
    ensures ReadInOrder(d, v, chunks + 1)
  {
    hide PlainSession, EdidChip, EdidSession, Chunk, ReadInOrder, WrSize;
    var chip, before, chunk := EdidChip(), EdidSession(v, chunks), Chunk(v, chunks);
    var read := InOrderMeans(d, v, chunks);
    var (mid, out) := read;
    ChunkReads(mid, v, chunks, WrSize(v) * chunks);
    var (end, more) := PlainSession(chip, mid, chunk, |chunk|);
    Continues(chip, d, before, chunk, mid, out, end, more);
    PrefixJoins(d.state.memory, out, more, WrSize(v) * chunks, WrSize(v));
    OneMoreChunk(v, chunks);
    InOrder(d, v, chunks + 1, end, out + more);
  }

  lemma {:induction false} OneMoreChunk(v: ChipVersion, chunks: nat)
    ensures EdidSession(v, chunks + 1) == EdidSession(v, chunks) + Chunk(v, chunks)
    ensures WrSize(v) * (chunks + 1) == WrSize(v) * chunks + WrSize(v)
  {
    hide Chunk, Prologue, WrSize;
  }

  lemma {:induction false} InOrderMeans(d: Device<EdidStore>, v: ChipVersion, chunks: nat)
    returns (r: (Device<EdidStore>, seq<byte>))
    requires ReadInOrder(d, v, chunks)
    ensures r == PlainSession(EdidChip(), d, EdidSession(v, chunks), |EdidSession(v, chunks)|)
    ensures r.0.page == SYS_OFFSET && r.0.state.memory == d.state.memory && |r.1| == WrSize(v) * chunks && r.1 <= d.state.memory
  {
    hide PlainSession, EdidSession, EdidChip, WrSize;
    r := PlainSession(EdidChip(), d, EdidSession(v, chunks), |EdidSession(v, chunks)|);
  }

  lemma {:induction false} InOrder(d: Device<EdidStore>, v: ChipVersion, chunks: nat, end: Device<EdidStore>, out: seq<byte>)
    requires PlainSession(EdidChip(), d, EdidSession(v, chunks), |EdidSession(v, chunks)|) == (end, out)
    requires end.page == SYS_OFFSET && end.state.memory == d.state.memory && |out| == WrSize(v) * chunks && out <= d.state.memory
    ensures ReadInOrder(d, v, chunks)
  {
    hide PlainSession, EdidSession, EdidChip, WrSize;
  }

  /** From such a receiver the loops read its memory from the start, chunk i
      from address size * i. */
  lemma {:induction false} EdidIsReadInOrder(d: Device<EdidStore>, v: ChipVersion, chunks: nat)
    requires |d.state.memory| == EDID_BUFFER_SIZE && WrSize(v) * chunks <= EDID_BUFFER_SIZE
    ensures ReadInOrder(d, v, chunks)
  {
    if chunks == 0 {
      PrologueSelects(d, v);
    } else {
      assert WrSize(v) * (chunks - 1) + WrSize(v) == WrSize(v) * chunks;
      EdidIsReadInOrder(d, v, chunks - 1);
      hide ReadInOrder;
      NextChunkInOrder(d, v, chunks - 1);
    }
  }

  /** The buffer of the source takes all 256 bytes. */
  lemma {:induction false} WholeEdidIsRead(d: Device<EdidStore>, v: ChipVersion)
    requires |d.state.memory| == EDID_BUFFER_SIZE
    ensures var session := EdidSession(v, EDID_BUFFER_SIZE / WrSize(v));
            PlainSession(EdidChip(), d, session, |session|).1 == d.state.memory
  {
    EdidIsReadInOrder(d, v, EDID_BUFFER_SIZE / WrSize(v));
    hide PlainSession, EdidSession, EdidChip;
  }

  lemma {:induction false} PrologueSelects(d: Device<EdidStore>, v: ChipVersion)
    ensures PlainSession(EdidChip(), d, Prologue(v), 4) == (d.(page := SYS_OFFSET), [])
  {
    var p, rest := Prologue(v), Prologue(v)[1..];
    PlainSysWrite(d, p[0]);
    OneAccess(EdidChip(), d, p[0]);
    QuietWrites(d.(page := SYS_OFFSET), rest, 3);
    SessionJoins(EdidChip(), d, [p[0]], rest, 3);
    assert p == [p[0]] + rest;
  }
}
