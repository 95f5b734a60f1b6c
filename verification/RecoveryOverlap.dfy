/** Attempts with one-time codes that overlap: `validate_and_consume_code` of
    `server/src/passkey/recovery.rs` holds no lock from loading the file to saving it. */
module RecoveryOverlap {
  import opened RecoveryLimiter
  import opened RecoveryStore
  import opened Sets

  /** What an attempt holds between loading and saving the file. */
  datatype Save = Save(key: string, codes: seq<RecoveryCode>)

  type TaskId = nat

  datatype Shared = Shared(w: World, saving: map<TaskId, Save>)

  /** The two halves of an attempt; other attempts may come in between. */
  datatype Step = Begin(t: TaskId, r: Request) | Finish(t: TaskId, saves: bool)

  predicate Enabled(s: Shared, step: Step) {
    match step
    case Begin(t, _) => t !in s.saving
    case Finish(t, _) => t in s.saving
  }

  /** Up to the loaded list, in which the code is then marked; otherwise the attempt is over. */
  function Begun(s: Shared, t: TaskId, r: Request): Shared {
    var e, key := EntryOf(s.w.limits, r.ip), NormalInput(r.input);
    var w := World(s.w.limits[r.ip := Charged(e, r.now)], s.w.codes);
    if Allows(e, r.now) && r.loads && FirstOpened(w.codes, key, 0) < |w.codes|
    then Shared(w, s.saving[t := Save(key, Consumed(w.codes, key))])
    else Shared(w, s.saving)
  }

  function Apply(s: Shared, step: Step): Shared
    requires Enabled(s, step)
  {
    match step
    case Begin(t, r) => Begun(s, t, r)
    case Finish(t, saves) => Shared(if saves then s.w.(codes := s.saving[t].codes) else s.w, s.saving - {t})
  }

  /** Whether the step reports the key as accepted. */
  predicate Accepts(s: Shared, step: Step, key: string)
    requires Enabled(s, step)
  {
    step.Finish? && step.saves && s.saving[step.t].key == key
  }

  /** An attempt on its own begins and finishes without a step in between. */
  lemma {:induction false} AttemptIsTwoSteps(w: World, t: TaskId, r: Request)
    ensures var begun := Begun(Shared(w, map[]), t, r); var (w', reply) := Validated(w, r);
            if t in begun.saving
            then Apply(begun, Finish(t, r.saves)) == Shared(w', map[])
                 && forall key :: Accepts(begun, Finish(t, r.saves), key) <==> Accepted(reply) && key == NormalInput(r.input)
            else begun == Shared(w', map[]) && !Accepted(reply)
  {
    var begun := Begun(Shared(w, map[]), t, r);
    hide FirstOpened, NormalInput, Consumed;
    assert begun.saving - {t} == map[];
  }

  ghost predicate Takes(run: seq<Shared>, steps: seq<Step>, n: int) {
    0 <= n < |steps| < |run| && Enabled(run[n], steps[n]) && run[n + 1] == Apply(run[n], steps[n])
  }

  ghost predicate IsRun(run: seq<Shared>, steps: seq<Step>) {
    && |run| == |steps| + 1 && run[0].saving == map[]
    && forall n :: 0 <= n < |steps| ==> Takes(run, steps, n)
  }

  /** At most M attempts are ever between loading and saving. */
  ghost predicate WithinOverlap(run: seq<Shared>, M: nat) {
    forall n :: 0 <= n < |run| ==> |run[n].saving| <= M
  }

  /** How often the key was accepted in the first n steps. */
  ghost function AcceptedIn(run: seq<Shared>, steps: seq<Step>, n: nat, key: string): nat
    requires IsRun(run, steps) && n <= |steps|
  {
    if n == 0 then 0
    else
      assert Takes(run, steps, n - 1);
      AcceptedIn(run, steps, n - 1, key) + if Accepts(run[n - 1], steps[n - 1], key) then 1 else 0
  }

  lemma {:induction false} CountStep(run: seq<Shared>, steps: seq<Step>, n: nat, key: string)
    requires IsRun(run, steps) && Takes(run, steps, n)
    ensures AcceptedIn(run, steps, n + 1, key) == AcceptedIn(run, steps, n, key) + if Accepts(run[n], steps[n], key) then 1 else 0
  {}

  lemma {:induction false} NothingAccepted(run: seq<Shared>, steps: seq<Step>, key: string)
    requires IsRun(run, steps)
    ensures AcceptedIn(run, steps, 0, key) == 0 && UpToDate(run[0])
    ensures forall initially: nat :: initially <= Unused(run[0].w.codes)[key] ==> AllCovered(run[0], key, 0, initially)
  {
    hide Unused;
  }

  lemma {:induction false} StepTaken(run: seq<Shared>, steps: seq<Step>, n: nat)
    requires IsRun(run, steps) && n < |steps|
    ensures Takes(run, steps, n)
  {}

  lemma {:induction false} FewAt(run: seq<Shared>, steps: seq<Step>, M: nat, n: nat)
    requires IsRun(run, steps) && WithinOverlap(run, M) && n <= |steps|
    ensures |run[n].saving| <= M
  {}

  /** How often the key has been accepted or can still be. */
  ghost function Account(run: seq<Shared>, steps: seq<Step>, n: nat, key: string): nat
    requires IsRun(run, steps) && n <= |steps|
  {
    AcceptedIn(run, steps, n, key) + Unused(run[n].w.codes)[key]
  }

  ghost predicate Conserved(run: seq<Shared>, steps: seq<Step>)
    requires IsRun(run, steps)
  {
    forall n: nat, key :: n <= |steps| ==> Account(run, steps, n, key) == Unused(run[0].w.codes)[key]
  }

  // ---- no code is lost ----

  /** The file, or the list that task t will write, misses at most as many copies
      of the key as have been accepted, or will have been once t has saved. */
  ghost predicate Covered(s: Shared, t: TaskId, key: string, accepted: nat, initially: nat) {
    t in s.saving ==> Unused(s.saving[t].codes)[key] + accepted + (if s.saving[t].key == key then 1 else 0) >= initially
  }

  ghost predicate AllCovered(s: Shared, key: string, accepted: nat, initially: nat) {
    && Unused(s.w.codes)[key] + accepted >= initially
    && forall t :: Covered(s, t, key, accepted, initially)
  }

  lemma {:induction false} BeginCovers(s: Shared, t: TaskId, r: Request, key: string, accepted: nat, initially: nat)
    requires t !in s.saving && AllCovered(s, key, accepted, initially)
    ensures AllCovered(Begun(s, t, r), key, accepted, initially)
  {
    var s' := Begun(s, t, r);
    ConsumedRemovesOne(s.w.codes, NormalInput(r.input));
    hide Unused, Consumed, FirstOpened, NormalInput, Allows, Charged;
    forall u ensures Covered(s', u, key, accepted, initially) {
      assert Covered(s, u, key, accepted, initially);
    }
  }

  lemma {:induction false} FinishCovers(s: Shared, t: TaskId, saves: bool, key: string, accepted: nat, initially: nat)
    requires t in s.saving && AllCovered(s, key, accepted, initially)
    ensures AllCovered(Apply(s, Finish(t, saves)), key, accepted + if saves && s.saving[t].key == key then 1 else 0, initially)
  {
    var s', accepted' := Apply(s, Finish(t, saves)), accepted + if saves && s.saving[t].key == key then 1 else 0;
    assert Covered(s, t, key, accepted, initially);
    hide Unused;
    forall u ensures Covered(s', u, key, accepted', initially) {
      assert Covered(s, u, key, accepted, initially);
    }
  }

  lemma {:induction false} StepCovers(s: Shared, step: Step, key: string, accepted: nat, initially: nat)
    requires Enabled(s, step) && AllCovered(s, key, accepted, initially)
    ensures AllCovered(Apply(s, step), key, accepted + if Accepts(s, step, key) then 1 else 0, initially)
  {
    match step {
      case Begin(t, r) => BeginCovers(s, t, r, key, accepted, initially);
      case Finish(t, saves) => FinishCovers(s, t, saves, key, accepted, initially);
    }
    hide AllCovered, Begun;
  }

  lemma {:induction false} RunCovers(run: seq<Shared>, steps: seq<Step>, n: nat, key: string)
    requires IsRun(run, steps) && n <= |steps|
    ensures AllCovered(run[n], key, AcceptedIn(run, steps, n, key), Unused(run[0].w.codes)[key])
  {
    hide Unused, AllCovered, Apply, Accepts, Enabled, IsRun, AcceptedIn;
    if n == 0 {
      NothingAccepted(run, steps, key);
    } else {
      RunCovers(run, steps, n - 1, key);
      StepTaken(run, steps, n - 1);
      CountStep(run, steps, n - 1, key);
      StepCovers(run[n - 1], steps[n - 1], key, AcceptedIn(run, steps, n - 1, key), Unused(run[0].w.codes)[key]);
    }
  }

  /** However attempts overlap, every copy that is no longer unused was accepted. */
  lemma {:induction false} NoCodeIsLost(run: seq<Shared>, steps: seq<Step>, n: nat, key: string)
    requires IsRun(run, steps) && n <= |steps|
    ensures Account(run, steps, n, key) >= Unused(run[0].w.codes)[key]
  {
    RunCovers(run, steps, n, key);
    hide Unused;
  }

  // ---- one attempt at a time ----

  /** The one list about to be saved is the file but for the one code. */
  ghost predicate UpToDate(s: Shared) {
    |s.saving| <= 1 && forall t :: t in s.saving ==> UpToDateAt(s, t)
  }

  ghost predicate UpToDateAt(s: Shared, t: TaskId) {
    t in s.saving && s.saving[t].key in Unused(s.w.codes) && s.saving[t].codes == Consumed(s.w.codes, s.saving[t].key)
  }

  lemma {:induction false} OnlyOne(saving: map<TaskId, Save>, t: TaskId)
    requires |saving| <= 1 && t in saving
    ensures saving - {t} == map[]
    ensures saving.Keys == {t}
  {
    if u :| u in saving && u != t {
      SubsetCount({t, u}, saving.Keys);
    }
  }

  lemma {:induction false} BeginConserves(s: Shared, t: TaskId, r: Request)
    requires t !in s.saving && UpToDate(s) && |Begun(s, t, r).saving| <= 1
    ensures UpToDate(Begun(s, t, r)) && Begun(s, t, r).w.codes == s.w.codes
  {
    var s', key := Begun(s, t, r), NormalInput(r.input);
    ConsumedRemovesOne(s.w.codes, key);
    hide Unused, Consumed, FirstOpened, NormalInput, Allows, Charged;
    if t in s'.saving {
      OnlyOne(s'.saving, t);
      assert UpToDateAt(s', t);
    } else {
      forall u | u in s'.saving ensures UpToDateAt(s', u) { assert UpToDateAt(s, u); }
    }
  }

  lemma {:induction false} FinishConserves(s: Shared, t: TaskId, saves: bool, key: string)
    requires t in s.saving && UpToDate(s)
    ensures var s' := Apply(s, Finish(t, saves));
            UpToDate(s') && Unused(s'.w.codes)[key] + (if saves && s.saving[t].key == key then 1 else 0) == Unused(s.w.codes)[key]
  {
    assert UpToDateAt(s, t);
    OnlyOne(s.saving, t);
    ConsumedRemovesOne(s.w.codes, s.saving[t].key);
    hide Unused, Consumed, FirstOpened, UpToDateAt;
  }

  lemma {:induction false} StepConserves(s: Shared, step: Step, key: string)
    requires Enabled(s, step) && UpToDate(s) && |Apply(s, step).saving| <= 1
    ensures UpToDate(Apply(s, step))
    ensures Unused(Apply(s, step).w.codes)[key] + (if Accepts(s, step, key) then 1 else 0) == Unused(s.w.codes)[key]
  {
    match step {
      case Begin(t, r) => BeginConserves(s, t, r);
      case Finish(t, saves) => FinishConserves(s, t, saves, key);
    }
    hide Unused, UpToDate, Begun;
  }

  lemma {:induction false} RunConserves(run: seq<Shared>, steps: seq<Step>, n: nat, key: string)
    requires IsRun(run, steps) && WithinOverlap(run, 1) && n <= |steps|
    ensures UpToDate(run[n]) && Account(run, steps, n, key) == Unused(run[0].w.codes)[key]
  {
    hide Unused, UpToDate, Apply, Accepts, Enabled, IsRun, WithinOverlap, AcceptedIn;
    if n == 0 {
      NothingAccepted(run, steps, key);
    } else {
      RunConserves(run, steps, n - 1, key);
      StepTaken(run, steps, n - 1);
      FewAt(run, steps, 1, n);
      CountStep(run, steps, n - 1, key);
      StepConserves(run[n - 1], steps[n - 1], key);
    }
  }

  // ---- two attempts at a time ----

  lemma {:induction false} BeginsTwice(codes: seq<RecoveryCode>, r: Request)
    requires r.loads && NormalInput(r.input) in Unused(codes)
    ensures var key := NormalInput(r.input); var save := Save(key, Consumed(codes, key));
            var s1 := Begun(Shared(World(map[], codes), map[]), 0, r); var s2 := Begun(s1, 1, r);
            s1.saving == map[0 := save] && s2.saving == map[0 := save, 1 := save] && s1.w.codes == s2.w.codes == codes
  {
    ConsumedRemovesOne(codes, NormalInput(r.input));
    hide Unused, Consumed, FirstOpened, NormalInput;
  }

  lemma {:induction false} RunOfFour(run: seq<Shared>, steps: seq<Step>)
    requires |steps| == 4 && |run| == 5 && run[0].saving == map[]
    requires Enabled(run[0], steps[0]) && run[1] == Apply(run[0], steps[0])
    requires Enabled(run[1], steps[1]) && run[2] == Apply(run[1], steps[1])
    requires Enabled(run[2], steps[2]) && run[3] == Apply(run[2], steps[2])
    requires Enabled(run[3], steps[3]) && run[4] == Apply(run[3], steps[3])
    ensures IsRun(run, steps)
  {
    hide Enabled, Apply;
  }

  lemma {:induction false} CountFour(run: seq<Shared>, steps: seq<Step>, key: string)
    requires IsRun(run, steps) && |steps| == 4 && steps[0].Begin? && steps[1].Begin?
    requires Enabled(run[2], steps[2]) && Accepts(run[2], steps[2], key) && Enabled(run[3], steps[3]) && Accepts(run[3], steps[3], key)
    ensures AcceptedIn(run, steps, 4, key) == 2
  {
    assert Takes(run, steps, 0) && Takes(run, steps, 1) && Takes(run, steps, 2) && Takes(run, steps, 3);
    hide IsRun, AcceptedIn;
    NothingAccepted(run, steps, key);
    CountStep(run, steps, 0, key);
    CountStep(run, steps, 1, key);
    CountStep(run, steps, 2, key);
    CountStep(run, steps, 3, key);
  }

  lemma {:induction false} FewSaving(save: Save)
    ensures var both: map<TaskId, Save> := map[0 := save, 1 := save]; var one: map<TaskId, Save> := map[1 := save];
            |both| == 2 && |map[0 := save]| == |one| == 1 && both - {0} == one && one - {1} == map[]
  {}

  /** Both finish, each saving the same list. */
  lemma {:induction false} FinishTwice(s: Shared, save: Save) returns (mid: Shared)
    requires s.saving == map[0 := save, 1 := save]
    ensures Enabled(s, Finish(0, true)) && Accepts(s, Finish(0, true), save.key) && mid == Apply(s, Finish(0, true))
    ensures Enabled(mid, Finish(1, true)) && Accepts(mid, Finish(1, true), save.key) && |mid.saving| == 1
    ensures Apply(mid, Finish(1, true)) == Shared(s.w.(codes := save.codes), map[])
  {
    FewSaving(save);
    mid := Shared(s.w.(codes := save.codes), map[1 := save]);
  }

  /** Two attempts at the same unused code load the file before either saves it:
      both are accepted, and one copy is gone. */
  lemma {:induction false} AcceptedTwice(codes: seq<RecoveryCode>, input: string, ip: string, now: nat)
    returns (run: seq<Shared>, steps: seq<Step>)
    requires NormalInput(input) in Unused(codes)
    ensures IsRun(run, steps) && WithinOverlap(run, 2) && run[0].w == World(map[], codes)
    ensures Account(run, steps, |steps|, NormalInput(input)) == Unused(codes)[NormalInput(input)] + 1
  {
    var r, key := Request(input, ip, now, true, true), NormalInput(input);
    var save := Save(key, Consumed(codes, key));
    BeginsTwice(codes, r);
    ConsumedRemovesOne(codes, key);
    FewSaving(save);
    var s0 := Shared(World(map[], codes), map[]);
    var s1 := Begun(s0, 0, r);
    var s2 := Begun(s1, 1, r);
    var s3 := FinishTwice(s2, save);
    hide Unused, Consumed, FirstOpened, NormalInput, Begun;
    var s4 := Apply(s3, Finish(1, true));
    run, steps := [s0, s1, s2, s3, s4], [Begin(0, r), Begin(1, r), Finish(0, true), Finish(1, true)];
    RunOfFour(run, steps);
    assert |s4.saving| == 0;
    hide Apply, AcceptedIn, IsRun;
    CountFour(run, steps, key);
  }

  /** With at most M attempts between loading and saving, every code is accepted
      as often as it has ceased to be unused, in every run from any codes, exactly
      when M is at most 1, that is, when attempts do not overlap. */
  lemma {:induction false} ConservedExactly(M: nat)
    ensures (forall run: seq<Shared>, steps: seq<Step> :: IsRun(run, steps) && WithinOverlap(run, M) ==> Conserved(run, steps)) <==> M <= 1
  {
    if M <= 1 {
      forall run: seq<Shared>, steps: seq<Step> | IsRun(run, steps) && WithinOverlap(run, M) ensures Conserved(run, steps) {
        hide IsRun, Unused;
        assert WithinOverlap(run, 1);
        forall n: nat, key | n <= |steps| ensures Account(run, steps, n, key) == Unused(run[0].w.codes)[key] {
          RunConserves(run, steps, n, key);
        }
      }
    } else {
      var codes := [RecoveryCode("A", false)];
      assert NormalInput("A") in Unused(codes) by {
        RecognisedExactly("A", "A");
        UnusedHasOpened(codes, NormalInput("A"), 1, 0);
      }
      hide Unused, NormalInput;
      var run, steps := AcceptedTwice(codes, "A", "", 0);
      assert !Conserved(run, steps);
    }
  }
}
