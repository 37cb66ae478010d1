/** When a host queue is tried again (queue.c:570-646): times in seconds, as `hq_deliver_push` computes them. */
module Backoff {
  import opened Options

  /** The scheduling fields of a host queue. */
  datatype Times = Times(last: int, next: int, wait: int, leaky: bool)

  /** What a queue's waits depend on besides its own times.  `jailed`: the mail jail is on and every message of the
    * queue is a prisoner.  `random` is the value of random().
    */
  datatype Setting = Setting(min: nat, max: nat, jailed: bool, jailSeconds: nat, random: nat)

  ghost predicate Sane(s: Setting) {
    0 < s.min <= s.max && 0 < s.jailSeconds
  }

  /** The wait and the launch time that a push would like (queue.c:595-639). */
  function Proposed(t: Times, s: Setting, now: int, delay: Option<int>): (r: (int, int))
    requires Sane(s)
  {
    if delay.Some? then
      if delay.value > s.max then (s.max, s.max + now)
      else (if delay.value < s.min then s.min else delay.value, delay.value + now)
    else if s.jailed then
      (s.jailSeconds, (if t.last == 0 then s.random % s.jailSeconds else s.jailSeconds) + now)
    else if t.wait == 0 || t.leaky then
      (s.min, s.random % s.min + now)
    else
      var w := if t.wait * 2 <= s.max then if t.wait * 2 < s.min then s.min else t.wait * 2 else s.max;
      (w, w + now)
  }

  /** The fields after a push (queue.c:570-646). */
  function Pushed(t: Times, s: Setting, now: int, delay: Option<int>): Times
    requires Sane(s)
  {
    var (wait, next) := Proposed(t, s, now, delay);
    var leaky := if delay.None? && !s.jailed then false else t.leaky;
    if t.next <= t.last || t.next > next then Times(t.last, next, wait, leaky) else t.(leaky := leaky)
  }

  /** A launch is pending once it lies after the last one. */
  predicate Pending(t: Times) {
    t.next > t.last
  }

  /** A launch and the push that follows it (daemon.c:797-829). */
  function Launched(t: Times, s: Setting, now: int): Times
    requires Sane(s)
  {
    Pushed(t.(last := now), s, now, None)
  }

  // ---------- A pending launch only moves forward ----------

  /** A push; one with the delay zero is a promotion (daemon.c:1684-1689), and `leak` stands for activity of the remote
    * host (daemon.c:1219-1226).  All others are launches, or the first push of a queue (queue.c:867-873).
    */
  datatype Push = Push(setting: Setting, now: int, delay: Option<int>, leak: bool)

  function Leaked(t: Times, p: Push): Times {
    if p.leak then t.(leaky := true) else t
  }

  /** The launch time that the push would like. */
  function Wish(t: Times, p: Push): int
    requires Sane(p.setting)
  {
    Proposed(Leaked(t, p), p.setting, p.now, p.delay).1
  }

  function After(t: Times, p: Push): Times
    requires Sane(p.setting)
  {
    Pushed(Leaked(t, p), p.setting, p.now, p.delay)
  }

  /** A launch that is pending stays pending if and only if the push asks for a time after the last launch, and then it
    * is the earlier of the two times.
    */
  lemma PushKeepsPendingIff(t: Times, p: Push)
    requires Sane(p.setting) && Pending(t)
    ensures Pending(After(t, p)) <==> Wish(t, p) > t.last
    ensures After(t, p).last == t.last && After(t, p).next == if Wish(t, p) < t.next then Wish(t, p) else t.next
  {}

  ghost predicate SanePushes(ps: seq<Push>) {
    forall p :: p in ps ==> Sane(p.setting)
  }

  function Run(t: Times, ps: seq<Push>): Times
    requires SanePushes(ps)
    decreases |ps|
  {
    if ps == [] then t else Run(After(t, ps[0]), ps[1..])
  }

  /** The launch is pending after every push. */
  ghost predicate StaysPending(t: Times, ps: seq<Push>)
    requires SanePushes(ps)
    decreases |ps|
  {
    Pending(t) && (ps == [] || StaysPending(After(t, ps[0]), ps[1..]))
  }

  /** Every push asks for a time after the last launch. */
  ghost predicate AsksForLater(t: Times, ps: seq<Push>)
    requires SanePushes(ps)
    decreases |ps|
  {
    ps == [] || (Wish(t, ps[0]) > t.last && AsksForLater(After(t, ps[0]), ps[1..]))
  }

  /** However often a queue is pushed, promoted or leaks, its launch stays pending if and only if each of these asks
    * for a time after the last launch; and then it is launched no later than planned.  Whatever comes in a later
    * second than the last launch asks for such a time.
    */
  lemma {:induction false} PendingMovesForward(t: Times, ps: seq<Push>)
    requires SanePushes(ps) && Pending(t)
    ensures StaysPending(t, ps) <==> AsksForLater(t, ps)
    ensures StaysPending(t, ps) ==> Run(t, ps).next <= t.next && Run(t, ps).last == t.last
    ensures (forall p :: p in ps ==> t.last < p.now && (p.delay.Some? ==> p.delay.value >= 0)) ==> AsksForLater(t, ps)
    decreases |ps|
  {
    if ps != [] {
      PushKeepsPendingIff(t, ps[0]);
      if Pending(After(t, ps[0])) {
        PendingMovesForward(After(t, ps[0]), ps[1..]);
      }
    }
  }

  /** A promotion in the second of the last launch ends the wait.  If the queue is not launched at once, because too
    * many runners are at work, and the runner of the last launch then reports activity, its launch is put off from
    * 160 to 209.
    */
  lemma PromotedThenPutOff()
    ensures var t, s := Times(100, 160, 60, false), Setting(60, 600, false, 1, 59);
            var ps := [Push(s, 100, Some(0), false), Push(s, 150, None, true)];
            SanePushes(ps) && Pending(t) && !AsksForLater(t, ps) && Run(t, ps).next == 209
  {
    var t, s := Times(100, 160, 60, false), Setting(60, 600, false, 1, 59);
    var ps := [Push(s, 100, Some(0), false), Push(s, 150, None, true)];
    var rest: seq<Push> := ps[1..][1..];
    var t1 := Times(100, 100, 60, false);
    assert rest == [] && After(t, ps[0]) == t1 && ps[1..][0] == ps[1] && After(t1, ps[1]).next == 209;
    assert Run(t1, ps[1..]) == Run(After(t1, ps[1]), rest);
  }

  /** A promotion (daemon.c:1684-1689) makes a queue due at once. */
  lemma PromotedIsDue(t: Times, s: Setting, now: int)
    requires Sane(s)
    ensures Pushed(t, s, now, Some(0)).next <= now
  {}

  // ---------- One push ----------

  /** A delay is kept, up to the maximum; the wait that it stands for is at least the minimum. */
  lemma DelayIsBounded(t: Times, s: Setting, now: int, delay: int)
    requires Sane(s) && !Pending(t)
    ensures var p := Pushed(t, s, now, Some(delay));
            && p.next - now == (if delay < s.max then delay else s.max)
            && p.wait == (if p.next - now < s.min then s.min else p.next - now)
            && p.leaky == t.leaky && p.last == t.last
  {}

  /** A queue of prisoners is due after the time of the jail, or within it if it has never been launched. */
  lemma PrisonersWait(t: Times, s: Setting, now: int)
    requires Sane(s) && s.jailed && !Pending(t)
    ensures var p := Pushed(t, s, now, None);
            && p.wait == s.jailSeconds && p.leaky == t.leaky
            && if t.last == 0 then now <= p.next < now + s.jailSeconds else p.next == now + s.jailSeconds
  {}

  /** A new or leaky queue is due within the minimum, and is leaky no longer. */
  lemma FirstWait(t: Times, s: Setting, now: int)
    requires Sane(s) && !s.jailed && !Pending(t) && (t.wait == 0 || t.leaky)
    ensures var p := Pushed(t, s, now, None); p.wait == s.min && now <= p.next < now + s.min && !p.leaky
  {}

  /** Activity of the remote host starts the waits over. */
  lemma LeakStartsOver(t: Times, p: Push)
    requires Sane(p.setting) && p.leak && p.delay.None? && !p.setting.jailed && !Pending(t)
    ensures After(t, p).wait == p.setting.min && p.now <= After(t, p).next < p.now + p.setting.min
  {}

  /** Any other queue waits twice as long as before, within the limits. */
  lemma NextWait(t: Times, s: Setting, now: int)
    requires Sane(s) && !s.jailed && !Pending(t) && t.wait > 0 && !t.leaky
    ensures var p := Pushed(t, s, now, None);
            && p.next == now + p.wait && s.min <= p.wait <= s.max
            && (s.min <= 2 * t.wait <= s.max ==> p.wait == 2 * t.wait)
            && (2 * t.wait < s.min ==> p.wait == s.min) && (s.max < 2 * t.wait ==> p.wait == s.max)
  {}

  // ---------- Waits ----------

  function Power2(k: nat): nat {
    if k == 0 then 1 else 2 * Power2(k - 1)
  }

  /** The times of the launches of a queue that is never delayed, leaky or jailed. */
  function Attempt(t: Times, s: Setting, nows: seq<int>): Times
    requires Sane(s)
  {
    if nows == [] then t else Launched(Attempt(t, s, nows[..|nows| - 1]), s, nows[|nows| - 1])
  }

  /** Every attempt comes when it is due. */
  ghost predicate OnTime(t: Times, s: Setting, nows: seq<int>)
    requires Sane(s)
  {
    forall k :: 0 <= k < |nows| ==> nows[k] >= Attempt(t, s, nows[..k]).next
  }

  lemma OnTimeBefore(t: Times, s: Setting, nows: seq<int>)
    requires Sane(s) && nows != [] && OnTime(t, s, nows)
    ensures OnTime(t, s, nows[..|nows| - 1])
    ensures nows[|nows| - 1] >= Attempt(t, s, nows[..|nows| - 1]).next
  {
    var before := nows[..|nows| - 1];
    forall k | 0 <= k < |before|
      ensures before[k] >= Attempt(t, s, before[..k]).next
    {
      assert before[..k] == nows[..k];
    }
  }

  /** The k-th wait in closed form. */
  function Wait(s: Setting, k: nat): nat {
    if Power2(k) * s.min <= s.max then Power2(k) * s.min else s.max
  }

  lemma WaitDoubles(s: Setting, k: nat)
    requires Sane(s)
    ensures Wait(s, 0) == s.min && s.min <= Wait(s, k) <= Wait(s, k + 1) <= s.max
    ensures Wait(s, k + 1) == if Wait(s, k) * 2 <= s.max then Wait(s, k) * 2 else s.max
  {
    assert Power2(k + 1) * s.min == 2 * (Power2(k) * s.min);
    assert Power2(k) * s.min >= s.min by {
      Power2Positive(k);
    }
  }

  lemma {:induction false} Power2Positive(k: nat)
    ensures Power2(k) >= 1
  {
    if k > 0 {
      Power2Positive(k - 1);
    }
  }

  /** The wait after the first attempt is the minimum; each further failure doubles it, up to the maximum, so waits
    * never get shorter.
    */
  lemma {:induction false} BackoffClosedForm(t: Times, s: Setting, nows: seq<int>)
    requires Sane(s) && !s.jailed && (t.wait == 0 || t.leaky) && nows != [] && OnTime(t, s, nows)
    ensures Attempt(t, s, nows).wait == Wait(s, |nows| - 1) && !Attempt(t, s, nows).leaky
    ensures s.min <= Attempt(t, s, nows).wait <= s.max
    ensures |nows| > 1 ==> Attempt(t, s, nows).next == nows[|nows| - 1] + Attempt(t, s, nows).wait
    ensures |nows| > 1 ==> Attempt(t, s, nows[..|nows| - 1]).wait <= Attempt(t, s, nows).wait
    decreases |nows|
  {
    var n := |nows| - 1;
    OnTimeBefore(t, s, nows);
    WaitDoubles(s, 0);
    if n > 0 {
      BackoffClosedForm(t, s, nows[..n]);
      WaitDoubles(s, n - 1);
    } else {
      assert nows[..n] == [];
    }
  }
}
