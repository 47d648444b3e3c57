/** The state every handler and background task shares: the ledger, the
    destroy lock, the `active` flag, the per-(user, item) cooldown registry
    and the queue of command batches waiting to be typed into the game.
    Instants are whole milliseconds on a monotonic clock, passed in by the
    caller. */
module SharedState {
  import opened Common
  import opened Database

  /** Key of the cooldown registry: (Discord user id, button trigger). */
  type CooldownKey = (string, string)

  datatype State = State(
    db: Ledger,
    destroyLocked: bool,
    active: bool,
    cooldowns: map<CooldownKey, int>,
    queue: seq<seq<string>>)

  /** Length of a purchase cooldown: 20 seconds. */
  const CooldownMillis: nat := 20000

  /** `SharedState::new`: active, no cooldowns, nothing queued, lock free. */
  function New(db: Ledger): (s: State)
    ensures s.db == db && s.active && !s.destroyLocked
    ensures s.cooldowns == map[] && s.queue == []
  {
    State(db, false, true, map[], [])
  }

  /** `is_bot_active`: the flag is set exactly when setting it would change
      nothing. */
  function IsBotActive(s: State): (r: bool)
    ensures r <==> s.(active := true) == s
  {
    s.active
  }

  /** `set_bot_active`: writes the flag and nothing else. */
  function SetBotActive(s: State, active: bool): (s': State)
    ensures IsBotActive(s') == active
    ensures s'.db == s.db && s'.destroyLocked == s.destroyLocked
    ensures s'.cooldowns == s.cooldowns && s'.queue == s.queue
  {
    s.(active := active)
  }

  /** Reading the flag returns the value last written; writing it again
      with the value it has changes nothing. */
  lemma SetThenIsActive(s: State, b: bool)
    ensures IsBotActive(SetBotActive(s, b)) == b
    ensures SetBotActive(s, IsBotActive(s)) == s
  {
  }

  /** Time since `since`; an instant in the future counts as no time at
      all, as `Instant::elapsed` saturates at zero. */
  function Elapsed(since: int, now: int): (e: nat)
    ensures since <= now ==> e == now - since
    ensures now < since ==> e == 0
  {
    if now < since then 0 else now - since
  }

  /** `check_cooldown`: the time left on the key's cooldown, computed when
      read; an expired entry stays in the registry. */
  function CheckCooldown(s: State, user: string, item: string, now: int): (r: Option<nat>)
    ensures (user, item) !in s.cooldowns ==> r == None
    ensures r.Some? ==> 0 < r.value <= CooldownMillis
    ensures r.Some? <==> (user, item) in s.cooldowns && now - s.cooldowns[(user, item)] < CooldownMillis
  {
    var key := (user, item);
    if key in s.cooldowns then
      var elapsed := Elapsed(s.cooldowns[key], now);
      if elapsed < CooldownMillis then Some(CooldownMillis - elapsed) else None
    else None
  }

  /** `set_cooldown`: records `now` as the key's last use. */
  function SetCooldown(s: State, user: string, item: string, now: int): (s': State)
    ensures (user, item) in s'.cooldowns && s'.cooldowns[(user, item)] == now
    ensures forall k :: k != (user, item) ==> (k in s'.cooldowns <==> k in s.cooldowns)
    ensures forall k :: k != (user, item) && k in s.cooldowns ==> s'.cooldowns[k] == s.cooldowns[k]
    ensures s'.db == s.db && s'.destroyLocked == s.destroyLocked && s'.active == s.active && s'.queue == s.queue
  {
    s.(cooldowns := s.cooldowns[(user, item) := now])
  }

  /** A check `d` milliseconds after setting a cooldown reports `20s - d`
      while `d` is under 20 seconds, and nothing from then on. */
  lemma CooldownAfterSet(s: State, user: string, item: string, t: int, d: nat)
    ensures d < CooldownMillis ==>
      CheckCooldown(SetCooldown(s, user, item, t), user, item, t + d) == Some(CooldownMillis - d)
    ensures d >= CooldownMillis ==>
      CheckCooldown(SetCooldown(s, user, item, t), user, item, t + d) == None
  {
  }

  /** The time left shrinks strictly as the clock advances. */
  lemma CooldownStrictlyDecreasing(s: State, user: string, item: string, t1: int, t2: int)
    requires t1 < t2
    requires CheckCooldown(s, user, item, t2).Some?
    requires (user, item) in s.cooldowns && s.cooldowns[(user, item)] <= t1
    ensures CheckCooldown(s, user, item, t1).Some?
    ensures CheckCooldown(s, user, item, t2).value < CheckCooldown(s, user, item, t1).value
  {
  }

  /** Setting a cooldown leaves every other key's answer unchanged. */
  lemma SetCooldownFrame(s: State, user: string, item: string, t: int, user2: string, item2: string, now: int)
    requires (user2, item2) != (user, item)
    ensures CheckCooldown(SetCooldown(s, user, item, t), user2, item2, now) == CheckCooldown(s, user2, item2, now)
  {
  }

  /** Appends one batch at the end of the command queue. */
  function PushBatch(s: State, batch: seq<string>): (s': State)
    ensures |s'.queue| == |s.queue| + 1
    ensures s'.queue[..|s.queue|] == s.queue && s'.queue[|s.queue|] == batch
    ensures s' == s.(queue := s'.queue)
  {
    s.(queue := s.queue + [batch])
  }

  /** The queue drain: takes every batch at once, leaving the queue empty. */
  function DrainQueue(s: State): (res: (State, seq<seq<string>>))
    ensures res.0 == s.(queue := [])
    ensures res.1 == s.queue
  {
    (s.(queue := []), s.queue)
  }

  /** Pushes `batches` one after another. */
  function PushAll(s: State, batches: seq<seq<string>>): (s': State)
    decreases |batches|
  {
    if |batches| == 0 then s else PushAll(PushBatch(s, batches[0]), batches[1..])
  }

  /** The queue is first-in first-out: a drain after a series of pushes
      returns what was already waiting followed by the pushed batches, in
      push order, and only the queue changed. */
  lemma {:induction false} DrainAfterPushesIsFifo(s: State, batches: seq<seq<string>>)
    ensures DrainQueue(PushAll(s, batches)).1 == s.queue + batches
    ensures DrainQueue(PushAll(s, batches)).0 == s.(queue := [])
    decreases |batches|
  {
    if |batches| > 0 {
      var s1 := PushBatch(s, batches[0]);
      DrainAfterPushesIsFifo(s1, batches[1..]);
      assert s1.queue + batches[1..] == s.queue + batches;
    }
  }

  /** The blocking `destroy_lock.lock()`: `None` while the lock is held (the
      caller waits), otherwise the state with the lock taken. */
  function AcquireDestroyLock(s: State): (r: Option<State>)
    ensures r.None? <==> s.destroyLocked
    ensures r.Some? ==> r.value == s.(destroyLocked := true)
  {
    if s.destroyLocked then None else Some(s.(destroyLocked := true))
  }

  /** Dropping the guard. */
  function ReleaseDestroyLock(s: State): (s': State)
    ensures AcquireDestroyLock(s').Some?
    ensures s'.db == s.db && s'.active == s.active && s'.cooldowns == s.cooldowns && s'.queue == s.queue
  {
    s.(destroyLocked := false)
  }

  /** Taking and then dropping a free lock restores the state. */
  lemma AcquireReleaseRoundTrip(s: State)
    requires !s.destroyLocked
    ensures AcquireDestroyLock(s).Some?
    ensures ReleaseDestroyLock(AcquireDestroyLock(s).value) == s
  {
  }
}
