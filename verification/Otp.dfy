/**
 * One-time codes (otp_logic.py), stored between calls as api/verify.py does: one record per target, kept an hour after
 * its last change. Digests are a parameter; only equality of digests is used.
 */
module Otp {
  import opened Text

  const CODE_LENGTH := 6
  const CODE_TTL := 600.0
  const MAX_ATTEMPTS := 5
  const RESEND_AFTER := 60.0
  const MAX_SENDS_PER_HOUR := 5
  const HOUR := 3600.0

  datatype Record = Record(hash: Option<int>, expires: real, attempts: nat, sends: seq<real>)

  datatype Refusal = TooSoon(wait: int) | TooMany | NoCode | Expired | Locked | WrongCode(left: int, record: Record)

  datatype Result<+T> = Ok(value: T) | Err(why: Refusal)

  function Recent(sends: seq<real>, now: real): seq<real> {
    if sends == [] then []
    else (if now - sends[0] < HOUR then [sends[0]] else []) + Recent(sends[1..], now)
  }

  function Sends(record: Option<Record>): seq<real> {
    if record.Some? then record.value.sends else []
  }

  /** otp_logic.check_can_send */
  function CheckCanSend(record: Option<Record>, now: real): Result<seq<real>> {
    var recent := Recent(Sends(record), now);
    if recent != [] && now - recent[|recent| - 1] < RESEND_AFTER then
      Err(TooSoon((RESEND_AFTER - (now - recent[|recent| - 1])).Floor + 1))
    else if |recent| >= MAX_SENDS_PER_HOUR then Err(TooMany)
    else Ok(recent)
  }

  /** otp_logic.issue */
  function Issue(digest: string -> int, record: Option<Record>, now: real, code: string): Result<Record> {
    match CheckCanSend(record, now)
    case Err(why) => Err(why)
    case Ok(recent) => Ok(Record(Some(digest(code)), now + CODE_TTL, 0, recent + [now]))
  }

  /** otp_logic.verify; `code` is what was typed, without white space. */
  function Verify(digest: string -> int, record: Option<Record>, now: real, code: string): Result<Record> {
    if record.None? || record.value.hash.None? then Err(NoCode)
    else if now > record.value.expires then Err(Expired)
    else if record.value.attempts >= MAX_ATTEMPTS then Err(Locked)
    else if !(|code| == CODE_LENGTH && record.value.hash.value == digest(code)) then
      var wrong := record.value.(attempts := record.value.attempts + 1);
      Err(WrongCode(MAX_ATTEMPTS - wrong.attempts, wrong))
    else Ok(record.value.(hash := None))
  }

  // ---- runs ----

  datatype Event = Send(at: real, code: string) | Try(at: real, code: string) | Forget(at: real)

  /**
   * A try that was judged: when, what was typed, and against which code (codes are numbered by the sends before
   * them).
   */
  datatype Judged = Judged(at: real, typed: string, code: nat)

  /**
   * The stored record with everything that ever happened to its target: sends, the codes sent, wrong and right tries.
   */
  datatype World = World(record: Option<Record>, storedAt: real, clock: real, sends: seq<real>, codes: seq<string>,
                         wrong: seq<Judged>, right: seq<Judged>)

  predicate Possible(w: World, e: Event) {
    e.at >= w.clock && (e.Forget? ==> e.at >= w.storedAt + HOUR)
  }

  function Sent(w: World, at: real, code: string, r: Record): World {
    w.(record := Some(r), storedAt := at, clock := at, sends := w.sends + [at], codes := w.codes + [code])
  }

  function Failed(w: World, at: real, typed: string, r: Record): World {
    w.(record := Some(r), storedAt := at, clock := at, wrong := w.wrong + [Judged(at, typed, |w.sends|)])
  }

  function Passed(w: World, at: real, typed: string, r: Record): World {
    w.(record := Some(r), storedAt := at, clock := at, right := w.right + [Judged(at, typed, |w.sends|)])
  }

  /**
   * One call of api/verify.py: what it stores, an answer that is an error storing nothing unless it carries a record.
   */
  function Step(digest: string -> int, w: World, e: Event): World {
    match e
    case Forget(at) => w.(record := None, clock := at)
    case Send(at, code) =>
      (match Issue(digest, w.record, at, code)
       case Ok(r) => Sent(w, at, code, r)
       case Err(_) => w.(clock := at))
    case Try(at, typed) =>
      (match Verify(digest, w.record, at, typed)
       case Ok(r) => Passed(w, at, typed, r)
       case Err(WrongCode(_, r)) => Failed(w, at, typed, r)
       case Err(_) => w.(clock := at))
  }

  ghost predicate Run(digest: string -> int, start: World, events: seq<Event>, end: World)
    decreases |events|
  {
    if events == [] then start == end
    else Possible(start, events[0]) && Run(digest, Step(digest, start, events[0]), events[1..], end)
  }

  function Fresh(now: real): World {
    World(None, now, now, [], [], [], [])
  }

  function Count(js: seq<Judged>, code: nat): nat {
    if js == [] then 0 else Count(js[..|js| - 1], code) + if js[|js| - 1].code == code then 1 else 0
  }

  // ---- what every step keeps ----

  /** Sends a minute apart, and never six within an hour. */
  ghost predicate Spaced(sends: seq<real>) {
    && (forall i, j | 0 <= i < j < |sends| :: sends[j] - sends[i] >= RESEND_AFTER)
    && (forall i, j | 0 <= i && i + 5 <= j < |sends| :: sends[j] - sends[i] >= HOUR)
  }

  ghost predicate NotAfter(sends: seq<real>, clock: real) {
    forall i | 0 <= i < |sends| :: sends[i] <= clock
  }

  /** The first `d` sends are more than an hour old. */
  ghost predicate HourOld(sends: seq<real>, d: nat, now: real) {
    d <= |sends| && forall i | 0 <= i < d :: now - sends[i] >= HOUR
  }

  /** The stored sends end the history, and what is missing before them is more than an hour old. */
  ghost predicate KeepsHour(sends: seq<real>, kept: seq<real>, clock: real) {
    var d := |sends| - |kept|;
    d >= 0 && kept == sends[d..] && HourOld(sends, d, clock)
  }

  /** A judged try falls between the send of its code and the next send. */
  ghost predicate Timely(sends: seq<real>, clock: real, js: seq<Judged>) {
    forall i | 0 <= i < |js| ::
      && 1 <= js[i].code <= |sends| && sends[js[i].code - 1] <= js[i].at <= clock
      && js[i].at <= sends[js[i].code - 1] + CODE_TTL
      && (js[i].code < |sends| ==> js[i].at <= sends[js[i].code])
  }

  ghost predicate AtMost(js: seq<Judged>, limit: nat) {
    forall c: nat :: Count(js, c) <= limit
  }

  /** What the record says of the code in use: its wrong tries, and whether and how long it is still to be used. */
  ghost predicate Current(digest: string -> int, w: World)
    requires |w.codes| == |w.sends|
  {
    var n := |w.sends|;
    w.record.Some? ==>
      && Count(w.wrong, n) == w.record.value.attempts
      && (w.record.value.hash.Some? ==>
            && n > 0 && Count(w.right, n) == 0 && w.record.value.expires == w.sends[n - 1] + CODE_TTL
            && w.record.value.hash.value == digest(w.codes[n - 1]))
  }

  /** A right try typed something with the digest of the code it was judged against. */
  ghost predicate Earned(digest: string -> int, codes: seq<string>, right: seq<Judged>) {
    forall i | 0 <= i < |right| :: 1 <= right[i].code <= |codes|
        && digest(right[i].typed) == digest(codes[right[i].code - 1])
  }

  ghost predicate Times(w: World) {
    && NotAfter(w.sends, w.clock) && (w.record.Some? ==> NotAfter(w.sends, w.storedAt))
    && Spaced(w.sends) && KeepsHour(w.sends, Sends(w.record), w.clock)
  }

  ghost predicate Tries(digest: string -> int, w: World)
    requires |w.codes| == |w.sends|
  {
    && Timely(w.sends, w.clock, w.wrong) && Timely(w.sends, w.clock, w.right)
    && AtMost(w.wrong, MAX_ATTEMPTS) && AtMost(w.right, 1) && Current(digest, w) && Earned(digest, w.codes, w.right)
  }

  ghost predicate Inv(digest: string -> int, w: World) {
    |w.codes| == |w.sends| && Times(w) && Tries(digest, w)
  }

  lemma {:induction false} AllRecent(sends: seq<real>, now: real)
    requires forall i | 0 <= i < |sends| :: now - sends[i] < HOUR
    ensures Recent(sends, now) == sends
  {
    if sends != [] {
      AllRecent(sends[1..], now);
      assert [sends[0]] + sends[1..] == sends;
    }
  }

  lemma OlderToo(sends: seq<real>, rest: nat, now: real)
    requires sends != [] && now - sends[0] >= HOUR && HourOld(sends[1..], rest, now)
    ensures HourOld(sends, rest + 1, now)
  {
    forall i | 0 <= i < rest + 1
      ensures now - sends[i] >= HOUR
    {
      if i > 0 { assert sends[1..][i - 1] == sends[i]; }
    }
  }

  /** In a history sorted by time, the sends of the last hour are its end. */
  lemma {:induction false} RecentIsSuffix(sends: seq<real>, now: real) returns (d: nat)
    requires forall i, j | 0 <= i < j < |sends| :: sends[i] <= sends[j]
    ensures HourOld(sends, d, now) && Recent(sends, now) == sends[d..]
    ensures d < |sends| ==> now - sends[d] < HOUR
  {
    if sends == [] {
      d := 0;
    } else if now - sends[0] < HOUR {
      AllRecent(sends, now);
      d := 0;
    } else {
      var rest := RecentIsSuffix(sends[1..], now);
      OlderToo(sends, rest, now);
      d := rest + 1;
      assert sends[1..][rest..] == sends[d..];
    }
  }

  /** Sends already dropped would not be counted. */
  lemma {:induction false} DroppedDoNotCount(sends: seq<real>, d: nat, now: real)
    requires HourOld(sends, d, now)
    ensures Recent(sends[d..], now) == Recent(sends, now)
  {
    if d > 0 {
      DroppedDoNotCount(sends[1..], d - 1, now);
      assert sends[1..][d - 1..] == sends[d..];
    }
  }

  /** So the sends counted are the sends of the last hour of the whole history. */
  lemma CountedAreTheHour(sends: seq<real>, kept: seq<real>, clock: real, now: real) returns (d: nat)
    requires Spaced(sends) && KeepsHour(sends, kept, clock) && now >= clock
    ensures HourOld(sends, d, now) && Recent(kept, now) == sends[d..]
    ensures d < |sends| ==> now - sends[d] < HOUR
  {
    DroppedDoNotCount(sends, |sends| - |kept|, now);
    d := RecentIsSuffix(sends, now);
  }

  lemma SendSpaced(sends: seq<real>, d: nat, clock: real, now: real)
    requires Spaced(sends) && NotAfter(sends, clock) && now >= clock
    requires HourOld(sends, d, now) && |sends| - d < MAX_SENDS_PER_HOUR
    requires d < |sends| ==> now - sends[|sends| - 1] >= RESEND_AFTER
    ensures Spaced(sends + [now])
  {
    var n := |sends|;
    forall i | 0 <= i < n
      ensures now - sends[i] >= RESEND_AFTER
    {
      if i >= d && i < n - 1 { assert sends[i] <= sends[n - 1]; }
    }
  }

  lemma CountSnoc(js: seq<Judged>, j: Judged, c: nat)
    ensures Count(js + [j], c) == Count(js, c) + if j.code == c then 1 else 0
  {
    assert (js + [j])[..|js|] == js;
  }

  lemma {:induction false} CountNone(sends: seq<real>, clock: real, js: seq<Judged>, c: nat)
    requires Timely(sends, clock, js) && c > |sends|
    ensures Count(js, c) == 0
  {
    if js != [] { CountNone(sends, clock, js[..|js| - 1], c); }
  }

  lemma LaterTimely(sends: seq<real>, clock: real, js: seq<Judged>, now: real)
    requires Timely(sends, clock, js) && now >= clock
    ensures Timely(sends, now, js)
  {
  }

  lemma NextTimely(sends: seq<real>, clock: real, js: seq<Judged>, now: real)
    requires Timely(sends, clock, js) && now >= clock
    ensures Timely(sends + [now], now, js)
  {
  }

  lemma TimePasses(sends: seq<real>, kept: seq<real>, clock: real, now: real)
    requires NotAfter(sends, clock) && KeepsHour(sends, kept, clock) && now >= clock
    ensures NotAfter(sends, now) && KeepsHour(sends, kept, now)
  {
  }

  lemma SendTimes(sends: seq<real>, kept: seq<real>, clock: real, now: real)
    requires NotAfter(sends, clock) && Spaced(sends) && KeepsHour(sends, kept, clock) && now >= clock
    requires var recent := Recent(kept, now);
             |recent| < MAX_SENDS_PER_HOUR && (recent == [] || now - recent[|recent| - 1] >= RESEND_AFTER)
    ensures NotAfter(sends + [now], now) && Spaced(sends + [now])
            && KeepsHour(sends + [now], Recent(kept, now) + [now], now)
  {
    var d := CountedAreTheHour(sends, kept, clock, now);
    SendSpaced(sends, d, clock, now);
    SendRecorded(sends, d, now);
  }

  lemma SendRecorded(sends: seq<real>, d: nat, now: real)
    requires HourOld(sends, d, now)
    ensures sends[d..] + [now] == (sends + [now])[d..] && HourOld(sends + [now], d, now)
  {
  }

  lemma StepTimes(digest: string -> int, w: World, e: Event)
    requires Times(w) && Possible(w, e) && |w.codes| == |w.sends|
    ensures Times(Step(digest, w, e))
  {
    TimePasses(w.sends, Sends(w.record), w.clock, e.at);
    match e {
      case Forget(at) =>
        assert w.sends[|w.sends|..] == [];
        if w.record.Some? { assert HourOld(w.sends, |w.sends|, at); }
      case Send(at, code) =>
        if CheckCanSend(w.record, at).Ok? { SendTimes(w.sends, Sends(w.record), w.clock, at); }
      case Try(at, code) =>
    }
  }

  lemma OneMore(js: seq<Judged>, j: Judged, limit: nat)
    requires AtMost(js, limit) && Count(js, j.code) < limit
    ensures AtMost(js + [j], limit) && Count(js + [j], j.code) == Count(js, j.code) + 1
  {
    forall c: nat
      ensures Count(js + [j], c) == Count(js, c) + if j.code == c then 1 else 0
    {
      CountSnoc(js, j, c);
    }
  }

  lemma TimelySnoc(sends: seq<real>, clock: real, js: seq<Judged>, j: Judged)
    requires Timely(sends, clock, js) && sends != [] && j.code == |sends|
    requires sends[|sends| - 1] <= j.at <= clock && j.at <= sends[|sends| - 1] + CODE_TTL
    ensures Timely(sends, clock, js + [j])
  {
  }

  /** There is a code to try: not used up, sent before, in time. */
  ghost predicate Live(w: World, at: real) {
    && |w.codes| == |w.sends| && at >= w.clock && (w.sends != [] ==> w.sends[|w.sends| - 1] <= at)
    && w.record.Some? && w.record.value.hash.Some? && at <= w.record.value.expires
  }

  lemma WrongTry(digest: string -> int, w: World, at: real, typed: string)
    requires Live(w, at) && Tries(digest, w) && w.record.value.attempts < MAX_ATTEMPTS
    ensures Tries(digest, Failed(w, at, typed, w.record.value.(attempts := w.record.value.attempts + 1)))
  {
    var j := Judged(at, typed, |w.sends|);
    LaterTimely(w.sends, w.clock, w.wrong, at);
    LaterTimely(w.sends, w.clock, w.right, at);
    OneMore(w.wrong, j, MAX_ATTEMPTS);
    TimelySnoc(w.sends, at, w.wrong, j);
  }

  lemma EarnedSnoc(digest: string -> int, codes: seq<string>, right: seq<Judged>, j: Judged)
    requires Earned(digest, codes, right) && 1 <= j.code <= |codes| && digest(j.typed) == digest(codes[j.code - 1])
    ensures Earned(digest, codes, right + [j])
  {
  }

  /**
   * A right try uses the code up: nothing is asked of the record's code any more, and the wrong tries are as they
   * were.
   */
  lemma UsedUp(digest: string -> int, w: World, at: real, typed: string)
    requires |w.codes| == |w.sends| && Current(digest, w) && w.record.Some?
    ensures Current(digest, Passed(w, at, typed, w.record.value.(hash := None)))
  {
  }

  lemma RightTry(digest: string -> int, w: World, at: real, typed: string)
    requires Live(w, at) && Tries(digest, w) && digest(typed) == w.record.value.hash.value
    ensures Tries(digest, Passed(w, at, typed, w.record.value.(hash := None)))
  {
    var j := Judged(at, typed, |w.sends|);
    LaterTimely(w.sends, w.clock, w.wrong, at);
    RightTimely(digest, w, at, j);
    UsedUp(digest, w, at, typed);
    EarnedSnoc(digest, w.codes, w.right, j);
  }

  lemma RightTimely(digest: string -> int, w: World, at: real, j: Judged)
    requires Live(w, at) && Tries(digest, w) && j.at == at && j.code == |w.sends|
    ensures Timely(w.sends, at, w.right + [j]) && AtMost(w.right + [j], 1)
  {
    LaterTimely(w.sends, w.clock, w.right, at);
    OneMore(w.right, j, 1);
    TimelySnoc(w.sends, at, w.right, j);
  }

  lemma SendTries(digest: string -> int, w: World, at: real, code: string, sends: seq<real>)
    requires |w.codes| == |w.sends| && at >= w.clock && Tries(digest, w)
    ensures Tries(digest, Sent(w, at, code, Record(Some(digest(code)), at + CODE_TTL, 0, sends)))
  {
    NextTimely(w.sends, w.clock, w.wrong, at);
    NextTimely(w.sends, w.clock, w.right, at);
    CountNone(w.sends, w.clock, w.wrong, |w.sends| + 1);
    CountNone(w.sends, w.clock, w.right, |w.sends| + 1);
  }

  lemma NothingTries(digest: string -> int, w: World, now: real)
    requires |w.codes| == |w.sends| && Tries(digest, w) && now >= w.clock
    ensures Tries(digest, w.(clock := now)) && Tries(digest, w.(record := None, clock := now))
  {
    LaterTimely(w.sends, w.clock, w.wrong, now);
    LaterTimely(w.sends, w.clock, w.right, now);
  }

  ghost predicate Ready(digest: string -> int, w: World, at: real) {
    |w.codes| == |w.sends| && Tries(digest, w) && at >= w.clock && (w.sends != [] ==> w.sends[|w.sends| - 1] <= at)
  }

  lemma StepSend(digest: string -> int, w: World, at: real, code: string)
    requires Ready(digest, w, at)
    ensures var next := Step(digest, w, Send(at, code)); |next.codes| == |next.sends| && Tries(digest, next)
  {
    NothingTries(digest, w, at);
    if CheckCanSend(w.record, at).Ok? {
      SendTries(digest, w, at, code, CheckCanSend(w.record, at).value + [at]);
    }
  }

  lemma StepTry(digest: string -> int, w: World, at: real, typed: string)
    requires Ready(digest, w, at)
    ensures var next := Step(digest, w, Try(at, typed)); |next.codes| == |next.sends| && Tries(digest, next)
  {
    match Verify(digest, w.record, at, typed)
    case Ok(r) => RightTry(digest, w, at, typed);
    case Err(WrongCode(_, r)) => WrongTry(digest, w, at, typed);
    case Err(_) => NothingTries(digest, w, at);
  }

  lemma StepTries(digest: string -> int, w: World, e: Event)
    requires Ready(digest, w, e.at) && Possible(w, e)
    ensures var next := Step(digest, w, e); |next.codes| == |next.sends| && Tries(digest, next)
  {
    match e
    case Forget(at) => NothingTries(digest, w, at);
    case Send(at, code) => StepSend(digest, w, at, code);
    case Try(at, typed) => StepTry(digest, w, at, typed);
  }

  lemma {:induction false} RunKeeps(digest: string -> int, start: World, events: seq<Event>, end: World)
    requires Inv(digest, start) && Run(digest, start, events, end)
    ensures Inv(digest, end)
    decreases |events|
  {
    if events != [] {
      StepTimes(digest, start, events[0]);
      StepTries(digest, start, events[0]);
      RunKeeps(digest, Step(digest, start, events[0]), events[1..], end);
    }
  }

  // ---- the promises ----

  /**
   * Over every run: sends are a minute apart, any hour has at most five of them, a code takes at most five wrong
   * tries and one right one.
   */
  lemma SendLimits(digest: string -> int, now: real, events: seq<Event>, end: World)
    requires Run(digest, Fresh(now), events, end)
    ensures forall i, j | 0 <= i < j < |end.sends| :: end.sends[j] - end.sends[i] >= 60.0
    ensures forall i, j | 0 <= i < j < |end.sends| && end.sends[j] - end.sends[i] < 3600.0 :: j - i < 5
    ensures forall c: nat :: Count(end.wrong, c) <= 5 && Count(end.right, c) <= 1
  {
    RunKeeps(digest, Fresh(now), events, end);
  }

  /** Over every run: what is accepted matches the last code sent, within ten minutes of it and before the next one. */
  lemma OnlyTheLastCodeWorks(digest: string -> int, now: real, events: seq<Event>, end: World, i: nat)
    requires Run(digest, Fresh(now), events, end) && i < |end.right|
    ensures var r := end.right[i];
            && 1 <= r.code <= |end.codes| == |end.sends| && digest(r.typed) == digest(end.codes[r.code - 1])
            && end.sends[r.code - 1] <= r.at <= end.sends[r.code - 1] + 600.0
            && (r.code < |end.sends| ==> r.at <= end.sends[r.code])
  {
    RunKeeps(digest, Fresh(now), events, end);
    AcceptedMatches(digest, end, i);
  }

  lemma AcceptedMatches(digest: string -> int, w: World, i: nat)
    requires Inv(digest, w) && i < |w.right|
    ensures var r := w.right[i];
            && 1 <= r.code <= |w.codes| == |w.sends| && digest(r.typed) == digest(w.codes[r.code - 1])
            && w.sends[r.code - 1] <= r.at <= w.sends[r.code - 1] + 600.0
            && (r.code < |w.sends| ==> r.at <= w.sends[r.code])
  {
  }

  /** How many judged tries fall in [from, from + 3600). */
  function InHour(js: seq<Judged>, from: real): nat {
    if js == [] then 0
    else InHour(js[..|js| - 1], from) + if from <= js[|js| - 1].at < from + 3600.0 then 1 else 0
  }

  /** How many were against one of `n` codes starting at `first`. */
  function CountRange(js: seq<Judged>, first: nat, n: nat): nat {
    if n == 0 then 0 else CountRange(js, first, n - 1) + Count(js, first + n - 1)
  }

  lemma {:induction false} CountRangeBound(js: seq<Judged>, first: nat, n: nat)
    requires forall c: nat :: Count(js, c) <= MAX_ATTEMPTS
    ensures CountRange(js, first, n) <= n * MAX_ATTEMPTS
  {
    if n > 0 { CountRangeBound(js, first, n - 1); }
  }

  lemma {:induction false} CountRangeSnoc(js: seq<Judged>, first: nat, n: nat)
    requires js != []
    ensures CountRange(js, first, n)
            == CountRange(js[..|js| - 1], first, n) + if first <= js[|js| - 1].code < first + n then 1 else 0
  {
    if n > 0 { CountRangeSnoc(js, first, n - 1); }
  }

  lemma {:induction false} InHourWithinRange(js: seq<Judged>, from: real, first: nat, n: nat)
    requires forall i | 0 <= i < |js| && from <= js[i].at < from + HOUR :: first <= js[i].code < first + n
    ensures InHour(js, from) <= CountRange(js, first, n)
  {
    if js != [] {
      InHourWithinRange(js[..|js| - 1], from, first, n);
      CountRangeSnoc(js, first, n);
    }
  }

  /** How many sends come before a moment. */
  function Before(sends: seq<real>, from: real): (m: nat)
    ensures m <= |sends|
    ensures forall i | 0 <= i < m :: sends[i] < from
    ensures m < |sends| ==> sends[m] >= from
  {
    if sends == [] || sends[0] >= from then 0 else 1 + Before(sends[1..], from)
  }

  /** A try within an hour of a moment was against the code then in use or one of the five sent in that hour. */
  lemma WithinSixCodes(sends: seq<real>, clock: real, js: seq<Judged>, from: real, i: nat)
    requires Spaced(sends) && Timely(sends, clock, js) && i < |js| && from <= js[i].at < from + HOUR
    ensures Before(sends, from) <= js[i].code < Before(sends, from) + 6
  {
    var first, code := Before(sends, from), js[i].code;
    assert code < |sends| ==> js[i].at <= sends[code];
    forall j | first + 5 <= j < |sends|
      ensures sends[j] >= from + HOUR
    {
      assert sends[j] - sends[first] >= HOUR;
    }
  }

  /**
   * Over every run, at most thirty wrong guesses fall in any hour: five for each of the five codes sent in it, and
   * five for the code it began with.
   */
  lemma ThirtyGuessesAnHour(digest: string -> int, now: real, events: seq<Event>, end: World, from: real)
    requires Run(digest, Fresh(now), events, end)
    ensures InHour(end.wrong, from) <= 30
  {
    RunKeeps(digest, Fresh(now), events, end);
    HourBound(digest, end, from);
  }

  lemma HourBound(digest: string -> int, w: World, from: real)
    requires Inv(digest, w)
    ensures InHour(w.wrong, from) <= 30
  {
    var first := Before(w.sends, from);
    forall i | 0 <= i < |w.wrong| && from <= w.wrong[i].at < from + HOUR
      ensures first <= w.wrong[i].code < first + 6
    {
      WithinSixCodes(w.sends, w.clock, w.wrong, from, i);
    }
    InHourWithinRange(w.wrong, from, first, 6);
    CountRangeBound(w.wrong, first, 6);
  }

  // ---- what is let through ----

  /** Until the last code is used, it is in the record, or an hour has gone by. */
  ghost predicate Usable(w: World) {
    var n := |w.sends|;
    n > 0 && Count(w.right, n) == 0 ==>
      (w.record.Some? && w.record.value.hash.Some?) || w.clock >= w.sends[n - 1] + 3600.0
  }

  lemma ForgetUsable(w: World, at: real)
    requires Usable(w) && Times(w) && at >= w.clock && at >= w.storedAt + HOUR
    ensures Usable(w.(record := None, clock := at))
  {
    if w.sends != [] && w.record.Some? { assert w.sends[|w.sends| - 1] <= w.storedAt; }
  }

  lemma PassedUsable(w: World, at: real, typed: string, r: Record)
    ensures Usable(Passed(w, at, typed, r))
  {
    CountSnoc(w.right, Judged(at, typed, |w.sends|), |w.sends|);
  }

  lemma FailedUsable(w: World, at: real, typed: string, r: Record)
    requires r.hash.Some?
    ensures Usable(Failed(w, at, typed, r))
  {
  }

  lemma SentUsable(w: World, at: real, code: string, r: Record)
    requires r.hash.Some?
    ensures Usable(Sent(w, at, code, r))
  {
  }

  lemma LaterUsable(w: World, at: real)
    requires Usable(w) && at >= w.clock
    ensures Usable(w.(clock := at))
  {
  }

  lemma SendUsable(digest: string -> int, w: World, e: Event)
    requires e.Send? && Usable(w) && e.at >= w.clock
    ensures Usable(Step(digest, w, e))
  {
    LaterUsable(w, e.at);
    match Issue(digest, w.record, e.at, e.code)
    case Ok(r) => SentUsable(w, e.at, e.code, r);
    case Err(_) =>
  }

  lemma TryUsable(digest: string -> int, w: World, e: Event)
    requires e.Try? && Usable(w) && e.at >= w.clock
    ensures Usable(Step(digest, w, e))
  {
    LaterUsable(w, e.at);
    match Verify(digest, w.record, e.at, e.code)
    case Ok(r) => PassedUsable(w, e.at, e.code, r);
    case Err(WrongCode(_, r)) => FailedUsable(w, e.at, e.code, r);
    case Err(_) =>
  }

  lemma StepUsable(digest: string -> int, w: World, e: Event)
    requires Times(w) && Usable(w) && Possible(w, e)
    ensures Usable(Step(digest, w, e))
  {
    if e.Forget? {
      ForgetUsable(w, e.at);
    } else if e.Send? {
      SendUsable(digest, w, e);
    } else {
      TryUsable(digest, w, e);
    }
  }

  lemma {:induction false} RunUsable(digest: string -> int, start: World, events: seq<Event>, end: World)
    requires Inv(digest, start) && Usable(start) && Run(digest, start, events, end)
    ensures Inv(digest, end) && Usable(end)
    decreases |events|
  {
    if events != [] {
      StepTimes(digest, start, events[0]);
      StepTries(digest, start, events[0]);
      StepUsable(digest, start, events[0]);
      RunUsable(digest, Step(digest, start, events[0]), events[1..], end);
    }
  }

  /** A code can be tried: one was sent, in the last ten minutes, is not used, and had fewer than five wrong tries. */
  predicate CanTry(w: World, at: real) {
    var n := |w.sends|;
    n > 0 && at <= w.sends[n - 1] + 600.0 && Count(w.right, n) == 0 && Count(w.wrong, n) < 5
  }

  /** The record tells whether a code can be tried, and against which digest. */
  lemma RecordTells(digest: string -> int, w: World, at: real)
    requires |w.codes| == |w.sends| && Current(digest, w) && Usable(w) && at >= w.clock
    ensures var n, r := |w.sends|, w.record;
            && (CanTry(w, at)
                <==> r.Some? && r.value.hash.Some? && at <= r.value.expires && r.value.attempts < MAX_ATTEMPTS)
            && (CanTry(w, at) ==> r.value.hash.value == digest(w.codes[n - 1]))
  {
  }

  lemma TryJudged(digest: string -> int, w: World, at: real, typed: string)
    requires |w.codes| == |w.sends| && Current(digest, w) && Usable(w) && at >= w.clock
    ensures var n, next := |w.sends|, Step(digest, w, Try(at, typed));
            var right := CanTry(w, at) && |typed| == 6 && digest(typed) == digest(w.codes[n - 1]);
            && next.right == (if right then w.right + [Judged(at, typed, n)] else w.right)
            && next.wrong == (if CanTry(w, at) && !right then w.wrong + [Judged(at, typed, n)] else w.wrong)
            && next.sends == w.sends && next.codes == w.codes
  {
    RecordTells(digest, w, at);
  }

  /**
   * Over every run: a try is accepted exactly when the last code was sent in the last ten minutes, has not been used
   * and had fewer than five wrong tries, and what is typed has six characters and that code's digest. It is counted
   * as wrong exactly when there is such a code and it is not matched.
   */
  lemma AcceptedExactly(digest: string -> int, now: real, events: seq<Event>, end: World, at: real, typed: string)
    requires Run(digest, Fresh(now), events, end) && at >= end.clock
    ensures |end.codes| == |end.sends|
    ensures var n, next := |end.sends|, Step(digest, end, Try(at, typed));
            var right := CanTry(end, at) && |typed| == 6 && digest(typed) == digest(end.codes[n - 1]);
            && next.right == (if right then end.right + [Judged(at, typed, n)] else end.right)
            && next.wrong == (if CanTry(end, at) && !right then end.wrong + [Judged(at, typed, n)] else end.wrong)
            && next.sends == end.sends && next.codes == end.codes
  {
    RunUsable(digest, Fresh(now), events, end);
    TryJudged(digest, end, at, typed);
  }

  /** A code can be sent: the last one a minute ago or longer, and the fifth from the end an hour ago or longer. */
  predicate CanSend(sends: seq<real>, at: real) {
    var n := |sends|;
    (n > 0 ==> at - sends[n - 1] >= 60.0) && (n >= 5 ==> at - sends[n - 5] >= 3600.0)
  }

  /** Of a history a minute apart, five or more are from the last hour exactly when the fifth from the end is. */
  lemma FiveRecent(sends: seq<real>, d: nat, at: real)
    requires Spaced(sends) && HourOld(sends, d, at) && (d < |sends| ==> at - sends[d] < HOUR)
    ensures |sends| - d < 5 <==> |sends| < 5 || at - sends[|sends| - 5] >= 3600.0
  {
    var n := |sends|;
    if d < n - 5 { assert sends[n - 5] - sends[d] >= RESEND_AFTER; }
  }

  lemma RecentCount(sends: seq<real>, kept: seq<real>, clock: real, at: real)
    requires Spaced(sends) && KeepsHour(sends, kept, clock) && at >= clock
    ensures |Recent(kept, at)| < 5 <==> |sends| < 5 || at - sends[|sends| - 5] >= 3600.0
    ensures var recent, n := Recent(kept, at), |sends|;
            && (n > 0 && at - sends[n - 1] < 60.0 ==> recent != [])
            && (recent != [] ==> n > 0 && recent[|recent| - 1] == sends[n - 1])
  {
    var d := CountedAreTheHour(sends, kept, clock, at);
    FiveRecent(sends, d, at);
  }

  lemma SendJudged(digest: string -> int, w: World, at: real, code: string)
    requires Inv(digest, w) && at >= w.clock
    ensures var next := Step(digest, w, Send(at, code));
            && next.sends == (if CanSend(w.sends, at) then w.sends + [at] else w.sends)
            && next.codes == (if CanSend(w.sends, at) then w.codes + [code] else w.codes)
            && next.wrong == w.wrong && next.right == w.right
  {
    RecentCount(w.sends, Sends(w.record), w.clock, at);
  }

  /**
   * Over every run: a code is sent exactly when the last one was sent at least a minute ago and fewer than five were in
   * the last hour.
   */
  lemma SentExactly(digest: string -> int, now: real, events: seq<Event>, end: World, at: real, code: string)
    requires Run(digest, Fresh(now), events, end) && at >= end.clock
    ensures var next := Step(digest, end, Send(at, code));
            && next.sends == (if CanSend(end.sends, at) then end.sends + [at] else end.sends)
            && next.codes == (if CanSend(end.sends, at) then end.codes + [code] else end.codes)
            && next.wrong == end.wrong && next.right == end.right
  {
    RunKeeps(digest, Fresh(now), events, end);
    SendJudged(digest, end, at, code);
  }

  /** What is told: after how many seconds to ask again, rounded up, and how many tries are left. */
  lemma ToldExactly(digest: string -> int, record: Option<Record>, at: real, code: string)
    ensures match Issue(digest, record, at, code)
            case Err(TooSoon(wait)) =>
              var sends := Recent(Sends(record), at);
              sends != [] && sends[|sends| - 1] + 60.0 < at + wait as real <= sends[|sends| - 1] + 61.0
            case _ => true
    ensures match Verify(digest, record, at, code)
            case Err(WrongCode(left, r)) =>
              record.Some? && r == record.value.(attempts := record.value.attempts + 1)
              && left == 5 - r.attempts && 0 <= left < 5
            case _ => true
  {
  }
}
