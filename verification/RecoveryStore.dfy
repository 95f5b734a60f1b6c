/** The one-time recovery codes of `server/src/passkey/recovery.rs`. */
module RecoveryStore {
  import opened Arithmetic
  import opened Ascii
  import opened Wrappers
  import opened RecoveryLimiter

  datatype RecoveryCode = RecoveryCode(code: string, used: bool)

  datatype RecoveryError = TooManyAttempts(wait: nat) | FileError

  // ---- normal forms ----

  function WithoutDashes(s: string): string { Removing(s, {'-'}) }

  function NormalInput(input: string): string { WithoutDashes(UpperAll(TrimEnd(TrimStart(input)))) }

  // ---- the list of codes ----

  predicate Opens(c: RecoveryCode, key: string) { !c.used && WithoutDashes(c.code) == key }

  /** The multiset of unused codes among the first n, in normal form. */
  function UnusedIn(codes: seq<RecoveryCode>, n: nat): multiset<string>
    requires n <= |codes|
  {
    if n == 0 then multiset{}
    else UnusedIn(codes, n - 1) + if codes[n - 1].used then multiset{} else multiset{WithoutDashes(codes[n - 1].code)}
  }

  function Unused(codes: seq<RecoveryCode>): multiset<string> { UnusedIn(codes, |codes|) }

  /** The first unused code from i on that the key opens, or the end. */
  function FirstOpened(codes: seq<RecoveryCode>, key: string, i: nat): (r: nat)
    requires i <= |codes|
    ensures i <= r <= |codes|
    ensures r < |codes| ==> Opens(codes[r], key)
    decreases |codes| - i
  {
    if i == |codes| || Opens(codes[i], key) then i else FirstOpened(codes, key, i + 1)
  }

  function Consumed(codes: seq<RecoveryCode>, key: string): seq<RecoveryCode> {
    var i := FirstOpened(codes, key, 0);
    if i < |codes| then codes[i := codes[i].(used := true)] else codes
  }

  lemma {:induction false} NoneBeforeFirst(codes: seq<RecoveryCode>, key: string, i: nat, j: nat)
    requires i <= |codes| && i <= j < FirstOpened(codes, key, i)
    ensures !Opens(codes[j], key)
    decreases |codes| - i
  {
    if i < j {
      NoneBeforeFirst(codes, key, i + 1, j);
    }
  }

  lemma {:induction false} UnusedHasOpened(codes: seq<RecoveryCode>, key: string, n: nat, j: nat)
    requires j < n <= |codes| && Opens(codes[j], key)
    ensures key in UnusedIn(codes, n)
  {
    if j < n - 1 {
      UnusedHasOpened(codes, key, n - 1, j);
    }
  }

  lemma {:induction false} UnusedIsOpened(codes: seq<RecoveryCode>, key: string, n: nat) returns (j: nat)
    requires n <= |codes| && key in UnusedIn(codes, n)
    ensures j < n && Opens(codes[j], key)
  {
    if Opens(codes[n - 1], key) {
      j := n - 1;
    } else {
      j := UnusedIsOpened(codes, key, n - 1);
    }
  }

  lemma {:induction false} OneMore(codes: seq<RecoveryCode>, n: nat, key: string)
    requires 0 < n <= |codes|
    ensures UnusedIn(codes, n)[key] == UnusedIn(codes, n - 1)[key] + if Opens(codes[n - 1], key) then 1 else 0
  {
    hide WithoutDashes;
  }

  ghost predicate SameBut(codes: seq<RecoveryCode>, flipped: seq<RecoveryCode>, i: nat) {
    |codes| == |flipped| && i < |codes| && flipped[i].used && forall j :: 0 <= j < |codes| && j != i ==> flipped[j] == codes[j]
  }

  lemma {:induction false} FlipCounts(codes: seq<RecoveryCode>, flipped: seq<RecoveryCode>, i: nat, n: nat, key: string)
    requires SameBut(codes, flipped, i) && n <= |codes|
    ensures UnusedIn(flipped, n)[key] + (if i < n && Opens(codes[i], key) then 1 else 0) == UnusedIn(codes, n)[key]
  {
    if n == 0 {
    } else {
      assert if i == n - 1 then !Opens(flipped[n - 1], key) else flipped[n - 1] == codes[n - 1];
      hide *;
      FlipCounts(codes, flipped, i, n - 1, key);
      OneMore(codes, n, key);
      OneMore(flipped, n, key);
    }
  }

  lemma {:induction false} FlipRemovesOne(codes: seq<RecoveryCode>, i: nat, key: string)
    requires i < |codes| && Opens(codes[i], key)
    ensures Unused(codes[i := codes[i].(used := true)]) == Unused(codes) - multiset{key}
  {
    var flipped := codes[i := codes[i].(used := true)];
    UnusedHasOpened(codes, key, |codes|, i);
    hide UnusedIn, WithoutDashes;
    assert SameBut(codes, flipped, i);
    forall k ensures Unused(flipped)[k] == (Unused(codes) - multiset{key})[k] {
      FlipCounts(codes, flipped, i, |codes|, k);
    }
  }

  /** The list refines the multiset of unused codes: a key that is in it is
      consumed once, any other key changes nothing. */
  lemma {:induction false} ConsumedRemovesOne(codes: seq<RecoveryCode>, key: string)
    ensures key in Unused(codes) <==> FirstOpened(codes, key, 0) < |codes|
    ensures Unused(Consumed(codes, key)) == Unused(codes) - multiset{key}
    ensures key !in Unused(codes) ==> Consumed(codes, key) == codes
  {
    hide UnusedIn, Opens;
    var i := FirstOpened(codes, key, 0);
    if i < |codes| {
      UnusedHasOpened(codes, key, |codes|, i);
      FlipRemovesOne(codes, i, key);
    } else if key in Unused(codes) {
      var j := UnusedIsOpened(codes, key, |codes|);
      NoneBeforeFirst(codes, key, 0, j);
    }
  }

  // ---- the count that is returned ----

  /** Codes the key does not open, used ones included. */
  function RemainingIn(codes: seq<RecoveryCode>, key: string, n: nat): nat
    requires n <= |codes|
  {
    if n == 0 then 0 else RemainingIn(codes, key, n - 1) + if Opens(codes[n - 1], key) then 0 else 1
  }

  function UsedIn(codes: seq<RecoveryCode>, n: nat): nat
    requires n <= |codes|
  {
    if n == 0 then 0 else UsedIn(codes, n - 1) + if codes[n - 1].used then 1 else 0
  }

  lemma {:induction false} CountsAddUp(codes: seq<RecoveryCode>, key: string, n: nat)
    requires n <= |codes|
    ensures RemainingIn(codes, key, n) + UnusedIn(codes, n)[key] == n
    ensures UsedIn(codes, n) + |UnusedIn(codes, n)| == n
  {
    if n == 0 {
    } else {
      CountsAddUp(codes, key, n - 1);
    }
  }

  // ---- one attempt ----

  datatype World = World(limits: Limits, codes: seq<RecoveryCode>)

  datatype Request = Request(input: string, ip: string, now: nat, loads: bool, saves: bool)

  type Reply = Result<(bool, nat), RecoveryError>

  function Validated(w: World, r: Request): (World, Reply) {
    var e := EntryOf(w.limits, r.ip);
    var limits := w.limits[r.ip := Charged(e, r.now)];
    if !Allows(e, r.now) then (World(limits, w.codes), Err(TooManyAttempts(WaitTime(e, r.now))))
    else if !r.loads then (World(limits, w.codes), Err(FileError))
    else
      var key := NormalInput(r.input);
      var remaining := RemainingIn(w.codes, key, |w.codes|);
      if FirstOpened(w.codes, key, 0) == |w.codes| then (World(limits, w.codes), Ok((false, remaining)))
      else if !r.saves then (World(limits, w.codes), Err(FileError))
      else (World(limits, Consumed(w.codes, key)), Ok((true, remaining)))
  }

  predicate Accepted(reply: Reply) { reply.Ok? && reply.value.0 }

  class RecoveryService {
    const limiter: RateLimiter
    /** The contents of the codes file. */
    var codes: seq<RecoveryCode>

    constructor (codes: seq<RecoveryCode>)
      ensures View() == World(map[], codes) && fresh(limiter)
    {
      limiter := new RateLimiter();
      this.codes := codes;
    }

    ghost function View(): World
      reads this, limiter
    {
      World(limiter.byIp, codes)
    }

    method ValidateAndConsumeCode(r: Request) returns (reply: Reply)
      modifies this, limiter
      ensures (View(), reply) == Validated(old(View()), r)
    {
      var allowed := limiter.CheckRateLimit(r.ip, r.now);
      if !allowed {
        var entry := limiter.byIp[r.ip];
        return Err(TooManyAttempts(SaturatingSub(WINDOW, SaturatingSub(r.now, entry.lastAttempt))));
      }
      if !r.loads {
        return Err(FileError);
      }
      var key := NormalInput(r.input);
      var storage := codes;
      var found, remaining := Scan(storage, key);
      if found {
        storage := Flip(storage, key);
        if !r.saves {
          return Err(FileError);
        }
        codes := storage;
        return Ok((true, remaining));
      }
      return Ok((false, remaining));
    }
  }

  method Scan(storage: seq<RecoveryCode>, key: string) returns (found: bool, remaining: nat)
    ensures found <==> key in Unused(storage)
    ensures found <==> FirstOpened(storage, key, 0) < |storage|
    ensures remaining == RemainingIn(storage, key, |storage|)
  {
    found, remaining := false, 0;
    for i := 0 to |storage|
      invariant found <==> key in UnusedIn(storage, i)
      invariant remaining == RemainingIn(storage, key, i)
    {
      if storage[i].used {
        remaining := remaining + 1;
      } else {
        if WithoutDashes(storage[i].code) == key {
          found := true;
        } else {
          remaining := remaining + 1;
        }
      }
    }
    ConsumedRemovesOne(storage, key);
  }

  method Flip(storage: seq<RecoveryCode>, key: string) returns (flipped: seq<RecoveryCode>)
    ensures flipped == Consumed(storage, key)
  {
    flipped := storage;
    for i := 0 to |storage|
      invariant flipped == storage
      invariant FirstOpened(storage, key, 0) == FirstOpened(storage, key, i)
    {
      if WithoutDashes(storage[i].code) == key && !storage[i].used {
        flipped := flipped[i := flipped[i].(used := true)];
        break;
      }
    }
  }

  /** An attempt is accepted exactly when the limiter lets it through, the file
      can be read and written, and the normal form of the input is an unused code. */
  lemma {:induction false} AcceptedExactly(w: World, r: Request)
    ensures var (w', reply) := Validated(w, r);
            && (Accepted(reply) <==>
                  Allows(EntryOf(w.limits, r.ip), r.now) && r.loads && r.saves && NormalInput(r.input) in Unused(w.codes))
            && Unused(w'.codes) == if Accepted(reply) then Unused(w.codes) - multiset{NormalInput(r.input)} else Unused(w.codes)
  {
    ConsumedRemovesOne(w.codes, NormalInput(r.input));
  }

  /** Who is told what: the limiter comes first, then the file. */
  lemma {:induction false} RepliesAreExact(w: World, r: Request)
    ensures var reply := Validated(w, r).1; var e := EntryOf(w.limits, r.ip);
            && (reply.Err? && reply.error.TooManyAttempts? <==> !Allows(e, r.now))
            && (reply.Err? && reply.error.TooManyAttempts? ==> reply.error.wait == WaitTime(e, r.now))
            && (reply.Err? && reply.error.FileError? <==>
                  Allows(e, r.now) && (!r.loads || (NormalInput(r.input) in Unused(w.codes) && !r.saves)))
            && (reply.Ok? ==> (reply.value.0 <==> NormalInput(r.input) in Unused(w.codes)))
  {
    ConsumedRemovesOne(w.codes, NormalInput(r.input));
    hide Unused, FirstOpened, NormalInput, Consumed;
  }

  /** The number in the reply counts all codes that the input does not open,
      used ones included. */
  lemma {:induction false} RemainingAddsUp(w: World, r: Request)
    ensures var reply := Validated(w, r).1;
            reply.Ok? ==> reply.value.1 + Unused(w.codes)[NormalInput(r.input)] == |w.codes|
  {
    CountsAddUp(w.codes, NormalInput(r.input), |w.codes|);
    hide UnusedIn, RemainingIn, FirstOpened, NormalInput;
  }

  /** The number in the reply is that of the codes left unused exactly when, for
      an accepted code, as many are used already as there are copies of it besides
      the consumed one, and for a refused one, none is used. */
  lemma {:induction false} RemainingIsRightExactly(w: World, r: Request)
    ensures var (w', reply) := Validated(w, r); var key := NormalInput(r.input);
            reply.Ok? ==>
              (reply.value.1 == |Unused(w'.codes)| <==>
               UsedIn(w.codes, |w.codes|) == if key in Unused(w.codes) then Unused(w.codes)[key] - 1 else 0)
  {
    CountsAddUp(w.codes, NormalInput(r.input), |w.codes|);
    AcceptedExactly(w, r);
    RemainingAddsUp(w, r);
    RepliesAreExact(w, r);
    hide Unused, UsedIn, RemainingIn, FirstOpened, NormalInput, Consumed, Validated;
  }

  /** Of one used code, one is said to remain to whoever enters anything. */
  lemma {:induction false} UsedCodeIsCounted(code: string, r: Request)
    requires r.loads
    ensures var w := World(map[], [RecoveryCode(code, true)]);
            Validated(w, r).1 == Ok((false, 1)) && Unused(Validated(w, r).0.codes) == multiset{}
  {
    var w, key := World(map[], [RecoveryCode(code, true)]), NormalInput(r.input);
    assert UnusedIn(w.codes, 1) == UnusedIn(w.codes, 0) == multiset{};
    hide NormalInput;
    AcceptedExactly(w, r);
    RemainingAddsUp(w, r);
    RepliesAreExact(w, r);
    assert Validated(w, r).1.Ok?;
    hide Validated;
  }

  // ---- runs ----

  function WorldAfter(w: World, requests: seq<Request>, n: nat): World
    requires n <= |requests|
  {
    if n == 0 then w else Validated(WorldAfter(w, requests, n - 1), requests[n - 1]).0
  }

  /** How often the key was accepted among the first n requests. */
  function Acceptances(w: World, requests: seq<Request>, n: nat, key: string): nat
    requires n <= |requests|
  {
    if n == 0 then 0
    else
      var r := requests[n - 1];
      Acceptances(w, requests, n - 1, key)
      + if Accepted(Validated(WorldAfter(w, requests, n - 1), r).1) && NormalInput(r.input) == key then 1 else 0
  }

  lemma {:induction false} NoRequestYet(w: World, requests: seq<Request>, key: string)
    ensures Acceptances(w, requests, 0, key) == 0 && WorldAfter(w, requests, 0) == w
  {}

  lemma {:induction false} OneRequest(w: World, requests: seq<Request>, n: nat, key: string)
    requires 0 < n <= |requests|
    ensures Acceptances(w, requests, n, key) + Unused(WorldAfter(w, requests, n).codes)[key]
         == Acceptances(w, requests, n - 1, key) + Unused(WorldAfter(w, requests, n - 1).codes)[key]
  {
    var before, r := WorldAfter(w, requests, n - 1), requests[n - 1];
    AcceptedExactly(before, r);
    hide Validated, Unused, NormalInput, Accepted;
  }

  /** Over every run, each code is accepted as often as it has ceased to be unused. */
  lemma {:induction false} CodesAreConserved(w: World, requests: seq<Request>, n: nat, key: string)
    requires n <= |requests|
    ensures Acceptances(w, requests, n, key) + Unused(WorldAfter(w, requests, n).codes)[key] == Unused(w.codes)[key]
  {
    hide *;
    if n == 0 {
      NoRequestYet(w, requests, key);
    } else {
      OneRequest(w, requests, n, key);
      CodesAreConserved(w, requests, n - 1, key);
    }
  }

  /** The attempts as the limiter sees them. */
  function AttemptsOf(requests: seq<Request>): seq<Attempt> {
    seq(|requests|, i requires 0 <= i < |requests| => Attempt(requests[i].ip, requests[i].now))
  }

  /** Every attempt is charged to its IP once, whatever comes of it, and is turned away
      with a wait exactly when the limiter refuses it: so the bounds of module
      RecoveryLimiter hold for the codes that can be tried. */
  lemma {:induction false} EveryAttemptIsCharged(codes: seq<RecoveryCode>, requests: seq<Request>, n: nat)
    requires n <= |requests|
    ensures WorldAfter(World(map[], codes), requests, n).limits == After(AttemptsOf(requests), n)
    ensures n < |requests| ==>
              var reply := Validated(WorldAfter(World(map[], codes), requests, n), requests[n]).1;
              AllowedAt(AttemptsOf(requests), n) <==> reply.Ok? || reply.error.FileError?
  {
    hide Validated, Allows, Charged, EntryOf, Unused, NormalInput;
    if n == 0 {
    } else {
      EveryAttemptIsCharged(codes, requests, n - 1);
      ChargesOnce(WorldAfter(World(map[], codes), requests, n - 1), requests[n - 1]);
    }
    if n < |requests| {
      RepliesAreExact(WorldAfter(World(map[], codes), requests, n), requests[n]);
    }
  }

  lemma {:induction false} ChargesOnce(w: World, r: Request)
    ensures Validated(w, r).0.limits == w.limits[r.ip := Charged(EntryOf(w.limits, r.ip), r.now)]
  {
    hide FirstOpened, NormalInput, Consumed, RemainingIn, Allows, Charged;
  }

  // ---- codes as they are shown, and as they are typed ----

  /** A generated code, in the form it is stored and shown. */
  function Grouped(raw: string): string
    requires |raw| == 16
  {
    raw[0..4] + "-" + raw[4..8] + "-" + raw[8..12] + "-" + raw[12..16]
  }

  lemma {:induction false} JoinGroup(a: string, b: string)
    requires '-' !in b
    ensures WithoutDashes(a + "-" + b) == WithoutDashes(a) + b
  {
    RemovingJoin(a + "-", b, {'-'});
    RemovingJoin(a, "-", {'-'});
    RemovingDrops('-', {'-'});
    RemovingKeeps(b, {'-'});
    hide Removing;
    assert WithoutDashes(a) + [] == WithoutDashes(a);
  }

  /** The stored form of a generated code has its 16 characters as normal form. */
  lemma {:induction false} GroupedNormalForm(raw: string)
    requires |raw| == 16 && '-' !in raw
    ensures WithoutDashes(Grouped(raw)) == raw
  {
    var a, b, c, d := raw[0..4], raw[4..8], raw[8..12], raw[12..16];
    assert raw == a + b + c + d;
    RemovingKeeps(a, {'-'});
    JoinGroup(a, b);
    JoinGroup(a + "-" + b, c);
    JoinGroup(a + "-" + b + "-" + c, d);
  }

  /** Nineteen characters: four groups of four, with a dash between any two. */
  lemma {:induction false} GroupedForm(raw: string)
    requires |raw| == 16
    ensures var shown := Grouped(raw);
            && |shown| == 19 && shown[4] == shown[9] == shown[14] == '-'
            && shown[0..4] == raw[0..4] && shown[5..9] == raw[4..8] && shown[10..14] == raw[8..12] && shown[15..19] == raw[12..16]
  {}

  lemma {:induction false} TrimmedPadding(pad: string, body: string, end: string)
    requires (forall i :: 0 <= i < |pad| ==> IsSpace(pad[i])) && (forall i :: 0 <= i < |end| ==> IsSpace(end[i]))
    requires body != [] && !IsSpace(body[0]) && !IsSpace(body[|body| - 1])
    ensures TrimEnd(TrimStart(pad + body + end)) == body
    decreases |pad| + |end|
  {
    var s := pad + body + end;
    if pad != [] {
      assert s[1..] == pad[1..] + body + end;
      TrimmedPadding(pad[1..], body, end);
    } else {
      assert TrimStart(s) == s;
      if end == [] {
        assert s == body;
      } else {
        var end' := end[..|end| - 1];
        assert s[..|s| - 1] == pad + body + end';
        assert TrimStart(pad + body + end') == pad + body + end';
        TrimmedPadding(pad, body, end');
      }
    }
  }

  /** `typed` is `stored` but for the case of letters, and dashes left out or put in. */
  predicate Types(typed: string, stored: string)
    decreases |typed| + |stored|
  {
    || (typed == [] && stored == [])
    || (typed != [] && typed[|typed| - 1] == '-' && Types(typed[..|typed| - 1], stored))
    || (stored != [] && stored[|stored| - 1] == '-' && Types(typed, stored[..|stored| - 1]))
    || (typed != [] && stored != [] && Upper(typed[|typed| - 1]) == stored[|stored| - 1] != '-'
        && Types(typed[..|typed| - 1], stored[..|stored| - 1]))
  }

  /** The last character of a string, and its normal form. */
  lemma {:induction false} LastTyped(typed: string)
    requires typed != []
    ensures var c := typed[|typed| - 1];
            WithoutDashes(UpperAll(typed))
            == WithoutDashes(UpperAll(typed[..|typed| - 1])) + if c == '-' then [] else [Upper(c)]
  {
    var front, c := typed[..|typed| - 1], typed[|typed| - 1];
    assert UpperAll(typed)[..|typed| - 1] == UpperAll(front);
    assert Upper(c) == '-' <==> c == '-';
    hide UpperAll, Upper;
  }

  lemma {:induction false} TypesIsSound(typed: string, stored: string)
    requires Types(typed, stored)
    ensures WithoutDashes(UpperAll(typed)) == WithoutDashes(stored)
    decreases |typed| + |stored|
  {
    hide UpperAll;
    if typed == [] && stored == [] {
      assert UpperAll([]) == [];
    } else if typed != [] && typed[|typed| - 1] == '-' && Types(typed[..|typed| - 1], stored) {
      LastTyped(typed);
      TypesIsSound(typed[..|typed| - 1], stored);
    } else if stored != [] && stored[|stored| - 1] == '-' && Types(typed, stored[..|stored| - 1]) {
      TypesIsSound(typed, stored[..|stored| - 1]);
    } else {
      LastTyped(typed);
      TypesIsSound(typed[..|typed| - 1], stored[..|stored| - 1]);
    }
  }

  lemma {:induction false} TypesIsComplete(typed: string, stored: string)
    requires WithoutDashes(UpperAll(typed)) == WithoutDashes(stored)
    ensures Types(typed, stored)
    decreases |typed| + |stored|
  {
    hide UpperAll;
    if typed != [] { LastTyped(typed); }
    if typed != [] && typed[|typed| - 1] == '-' {
      TypesIsComplete(typed[..|typed| - 1], stored);
    } else if stored != [] && stored[|stored| - 1] == '-' {
      TypesIsComplete(typed, stored[..|stored| - 1]);
    } else if typed == [] || stored == [] {
      assert UpperAll([]) == [];
    } else {
      var x, y := WithoutDashes(UpperAll(typed[..|typed| - 1])), WithoutDashes(stored[..|stored| - 1]);
      SameLast(x, Upper(typed[|typed| - 1]), y, stored[|stored| - 1]);
      TypesIsComplete(typed[..|typed| - 1], stored[..|stored| - 1]);
    }
  }

  lemma {:induction false} SameLast(x: string, c: char, y: string, d: char)
    requires x + [c] == y + [d]
    ensures x == y && c == d
  {
    assert (x + [c])[..|x|] == x && (y + [d])[..|y|] == y;
    assert (x + [c])[|x|] == c && (y + [d])[|y|] == d;
  }

  /** An input opens an unused code exactly when, once trimmed, it is the code
      up to the case of letters and to dashes. */
  lemma {:induction false} RecognisedExactly(stored: string, input: string)
    ensures Opens(RecoveryCode(stored, false), NormalInput(input)) <==> Types(TrimEnd(TrimStart(input)), stored)
  {
    var typed := TrimEnd(TrimStart(input));
    hide Types, Removing, UpperAll, TrimEnd, TrimStart;
    if Types(typed, stored) {
      TypesIsSound(typed, stored);
    }
    if WithoutDashes(UpperAll(typed)) == WithoutDashes(stored) {
      TypesIsComplete(typed, stored);
    }
  }

  lemma {:induction false} TypedHasNoSpace(typed: string, stored: string)
    requires Types(typed, stored) && forall i :: 0 <= i < |stored| ==> !IsSpace(stored[i])
    ensures forall i :: 0 <= i < |typed| ==> !IsSpace(typed[i])
    decreases |typed| + |stored|
  {
    if typed == [] {
    } else if typed[|typed| - 1] == '-' && Types(typed[..|typed| - 1], stored) {
      TypedHasNoSpace(typed[..|typed| - 1], stored);
    } else if stored != [] && stored[|stored| - 1] == '-' && Types(typed, stored[..|stored| - 1]) {
      TypedHasNoSpace(typed, stored[..|stored| - 1]);
    } else {
      TypedHasNoSpace(typed[..|typed| - 1], stored[..|stored| - 1]);
    }
  }

  /** The characters codes are made of. */
  predicate InCharset(c: char) { 'A' <= c <= 'Z' || '2' <= c <= '9' }

  lemma {:induction false} GroupedChars(raw: string)
    requires |raw| == 16 && forall i :: 0 <= i < 16 ==> InCharset(raw[i])
    ensures forall i :: 0 <= i < |Grouped(raw)| ==> !IsSpace(Grouped(raw)[i])
  {
    forall i | 0 <= i < |Grouped(raw)| ensures InCharset(Grouped(raw)[i]) || Grouped(raw)[i] == '-' {}
  }

  /** A generated code, typed in any mix of cases, with dashes left out or put in,
      and with spaces around it, is recognised. */
  lemma {:induction false} TypedCodeIsRecognised(raw: string, pad: string, typed: string, end: string)
    requires |raw| == 16 && forall i :: 0 <= i < 16 ==> InCharset(raw[i])
    requires (forall i :: 0 <= i < |pad| ==> IsSpace(pad[i])) && (forall i :: 0 <= i < |end| ==> IsSpace(end[i]))
    requires Types(typed, Grouped(raw))
    ensures Opens(RecoveryCode(Grouped(raw), false), NormalInput(pad + typed + end)) && NormalInput(pad + typed + end) == raw
  {
    GroupedChars(raw);
    GroupedNormalForm(raw);
    hide Grouped, Types, UpperAll, TrimStart, TrimEnd;
    TypesIsSound(typed, Grouped(raw));
    TypedHasNoSpace(typed, Grouped(raw));
    assert typed != [] by { NothingTyped(); }
    TrimmedPadding(pad, typed, end);
  }

  lemma {:induction false} NothingTyped()
    ensures WithoutDashes(UpperAll([])) == []
  {
    assert UpperAll([]) == [];
  }
}
