/**
 * The anonymous daily usage meter of the `useUsageLimit` hook.
 *
 * The browser's local storage entry under the key `ai_renamer_usage` is an
 * explicit `Storage` value, the calendar day (`new Date().toDateString()`)
 * is a `today` parameter of every step, and the hook's React state
 * (`remainingUses`, `loading`) is the `Meter` record. Each step returns the
 * new storage and state instead of writing them.
 */
module UsageLimit {
  import opened Wrappers

  /** Free analyses per calendar day for an anonymous visitor. */
  const MaxFreeUses: int := 3

  /** The persisted record `{count, lastReset}`; `lastReset` is a day string. */
  datatype UsageData = UsageData(count: int, lastReset: string)

  /**
   * What the storage entry holds when present: a record, or an entry the
   * hook cannot read a record from. `Corrupt` stands both for text
   * `JSON.parse` rejects and for a stored JSON `null`, whose `lastReset`
   * lookup throws in the same places.
   */
  datatype Stored = Valid(usage: UsageData) | Corrupt

  type Storage = Option<Stored>

  /** The `user` argument: `null` or a signed-in user. */
  datatype Identity = Anonymous | Authenticated(user: string)

  /** `remainingUses`: a count, or JavaScript's `Infinity` for a signed-in user. */
  datatype Remaining = Finite(n: int) | Unlimited {
    /** `remainingUses > 0` (true of `Infinity`) */
    predicate Positive() {
      Unlimited? || n > 0
    }
  }

  /** The hook's state together with the storage entry it manages. */
  datatype Meter = Meter(storage: Storage, remaining: Remaining, loading: bool)

  /** The state on the first render, before the effect has run. */
  function Mount(storage: Storage): (m: Meter)
    ensures m.storage == storage && m.loading
    ensures forall today :: m.remaining == Policy(Anonymous, None, today)
  {
    Meter(storage, Finite(MaxFreeUses), true)
  }

  /** `Math.max(0, MAX_FREE_USES - count)` */
  function RemainingAfter(count: int): (r: int)
    ensures r >= 0
    ensures r <= MaxFreeUses || count < 0
    ensures r > 0 <==> count < MaxFreeUses
  {
    if MaxFreeUses - count > 0 then MaxFreeUses - count else 0
  }

  /**
   * The uses already counted today according to the storage entry: a
   * record of another day, a missing entry and an unreadable one all count
   * as zero.
   */
  function CountToday(storage: Storage, today: string): int {
    match storage
    case Some(Valid(u)) => if u.lastReset == today then u.count else 0
    case _ => 0
  }

  /**
   * The usage policy as a reference: a signed-in user is unlimited, an
   * anonymous visitor has what is left of the daily allowance.
   */
  function Policy(id: Identity, storage: Storage, today: string): Remaining {
    if id.Authenticated? then Unlimited else Finite(RemainingAfter(CountToday(storage, today)))
  }

  /** Storage holds nothing or a record of today. */
  predicate Fresh(storage: Storage, today: string) {
    storage.None? || (storage.value.Valid? && storage.value.usage.lastReset == today)
  }

  /**
   * The effect run on mount and whenever the user changes. A signed-in user
   * becomes unlimited and storage is left alone. For an anonymous visitor
   * a stale record is rewritten to a zero count for today, an unreadable
   * entry is removed, and a missing or current record is left as it is.
   */
  function Init(id: Identity, m: Meter, today: string): (m': Meter)
    ensures !m'.loading
    ensures m'.remaining == Policy(id, m.storage, today)
    ensures id.Authenticated? ==> m'.storage == m.storage
    ensures id.Anonymous? ==> Fresh(m'.storage, today)
    ensures CountToday(m'.storage, today) == CountToday(m.storage, today)
    ensures m.storage.None? ==> m'.storage.None?
    ensures id.Anonymous? && m.storage == Some(Corrupt) ==> m'.storage.None?
    ensures Fresh(m.storage, today) ==> m'.storage == m.storage
  {
    if id.Authenticated? then
      Meter(m.storage, Unlimited, false)
    else
      match m.storage
      case None => Meter(None, Finite(MaxFreeUses), false)
      case Some(Corrupt) => Meter(None, Finite(MaxFreeUses), false)
      case Some(Valid(u)) =>
        if u.lastReset != today then
          Meter(Some(Valid(UsageData(0, today))), Finite(MaxFreeUses), false)
        else
          Meter(m.storage, Finite(RemainingAfter(u.count)), false)
  }

  /** What `useAnalysis` does: returns an answer, or throws out of `JSON.parse`. */
  datatype UseOutcome = Returned(allowed: bool, meter: Meter) | Threw

  /**
   * `useAnalysis`: a signed-in user is always allowed and nothing changes.
   * An anonymous visitor with no remaining uses in memory is refused and
   * nothing changes. Otherwise the stored record is re-read, a missing or
   * stale one counts from zero, and the count plus one is written back for
   * today. The stored text is parsed without a guard, so an unreadable
   * entry makes the call throw.
   */
  function UseAnalysis(id: Identity, m: Meter, today: string): (o: UseOutcome)
    ensures id.Authenticated? ==> o == Returned(true, m)
    ensures id.Anonymous? && !m.remaining.Positive() ==> o == Returned(false, m)
    ensures o.Returned? && !o.allowed ==> o.meter == m
    ensures o.Threw? <==> id.Anonymous? && m.remaining.Positive() && m.storage == Some(Corrupt)
    ensures id.Anonymous? && m.remaining.Positive() && m.storage != Some(Corrupt) ==> o.Returned? && o.allowed
    ensures o.Returned? && o.allowed && id.Anonymous? ==>
      && o.meter.storage == Some(Valid(UsageData(CountToday(m.storage, today) + 1, today)))
      && o.meter.remaining == Policy(id, o.meter.storage, today)
      && o.meter.loading == m.loading
  {
    if id.Authenticated? then Returned(true, m)
    else if !m.remaining.Positive() then Returned(false, m)
    else
      var current :=
        match m.storage
        case None => Some(UsageData(0, today))
        case Some(Corrupt) => None
        case Some(Valid(u)) => Some(if u.lastReset != today then UsageData(0, today) else u);
      if current.None? then Threw
      else
        var updated := current.value.(count := current.value.count + 1);
        Returned(true, m.(storage := Some(Valid(updated)), remaining := Finite(RemainingAfter(updated.count))))
  }

  /**
   * `canUse`: signed in, or a positive remaining count. It is false exactly
   * when `useAnalysis` on the same state would refuse, whatever the day.
   */
  function CanUse(id: Identity, m: Meter): (r: bool)
    ensures forall today :: (UseAnalysis(id, m, today) == Returned(false, m)) <==> !r
  {
    id.Authenticated? || m.remaining.Positive()
  }

  /**
   * `isUnlimited`: `!!user`. It holds exactly when the usage policy gives
   * no limit whatever is stored and whatever the day.
   */
  function IsUnlimited(id: Identity): (r: bool)
    ensures r <==> forall storage, today :: Policy(id, storage, today).Unlimited?
  {
    assert Policy(id, None, "").Unlimited? <==> id.Authenticated?;
    id.Authenticated?
  }

  /** `maxUses` */
  function MaxUses(): (r: int)
    ensures r == RemainingAfter(0)
    ensures forall today :: Policy(Anonymous, None, today) == Finite(r)
  {
    MaxFreeUses
  }

  /**
   * The flags the hook exposes for a signed-in user after the effect:
   * unlimited, usable, storage untouched, and `useAnalysis` a no-op that
   * says yes.
   */
  lemma AuthenticatedUnlimited(user: string, m: Meter, today: string)
    ensures var m' := Init(Authenticated(user), m, today);
      && m'.remaining == Unlimited
      && m'.storage == m.storage
      && CanUse(Authenticated(user), m')
      && IsUnlimited(Authenticated(user))
      && UseAnalysis(Authenticated(user), m', today) == Returned(true, m')
  {
  }

  /**
   * The state and storage agree: the remaining count in memory is what the
   * policy gives for the stored record of today.
   */
  predicate Consistent(m: Meter, today: string) {
    m.remaining == Policy(Anonymous, m.storage, today) && Fresh(m.storage, today)
  }

  /** After the effect the anonymous meter agrees with storage. */
  lemma InitConsistent(m: Meter, today: string)
    ensures Consistent(Init(Anonymous, m, today), today)
  {
  }

  /**
   * `canUse` predicts `useAnalysis`: on a state the effect has set up for
   * today, an anonymous call is allowed exactly when `canUse` holds.
   */
  lemma CanUseIffAllowed(m: Meter, today: string)
    requires Consistent(m, today)
    ensures var o := UseAnalysis(Anonymous, m, today);
      o.Returned? && (o.allowed <==> CanUse(Anonymous, m))
  {
  }

  /**
   * One allowed use on a consistent state consumes exactly one unit: the
   * stored count goes up by one, the remaining count down by one, and the
   * two still agree.
   */
  lemma UseConsumesOne(m: Meter, today: string)
    requires Consistent(m, today)
    requires CanUse(Anonymous, m)
    ensures var o := UseAnalysis(Anonymous, m, today);
      && o.Returned? && o.allowed
      && CountToday(o.meter.storage, today) == CountToday(m.storage, today) + 1
      && Consistent(o.meter, today)
      && o.meter.remaining.n == m.remaining.n - 1
  {
  }

  /**
   * `n` calls of `useAnalysis` by an anonymous visitor on the same day:
   * how many were allowed and the final state, or `None` if a call threw.
   */
  function UseRepeatedly(m: Meter, today: string, n: nat): Option<(nat, Meter)>
    decreases n
  {
    if n == 0 then Some((0, m))
    else
      match UseAnalysis(Anonymous, m, today)
      case Threw => None
      case Returned(allowed, m1) =>
        match UseRepeatedly(m1, today, n - 1)
        case None => None
        case Some((granted, final)) => Some((if allowed then granted + 1 else granted, final))
  }

  function Min(a: int, b: int): int {
    if a <= b then a else b
  }

  /**
   * The daily allowance: from a state set up for today, `n` calls never
   * throw, are allowed exactly as often as the allowance left permits, and
   * leave the meter consistent with the stored count raised by that many.
   */
  lemma {:induction false} DailyAllowance(m: Meter, today: string, n: nat)
    requires Consistent(m, today)
    ensures var left := RemainingAfter(CountToday(m.storage, today));
      var r := UseRepeatedly(m, today, n);
      && r.Some?
      && r.value.0 == Min(n, left)
      && Consistent(r.value.1, today)
      && CountToday(r.value.1.storage, today) == CountToday(m.storage, today) + Min(n, left)
    decreases n
  {
    if n > 0 {
      var c := CountToday(m.storage, today);
      if CanUse(Anonymous, m) {
        UseConsumesOne(m, today);
        var m1 := UseAnalysis(Anonymous, m, today).meter;
        DailyAllowance(m1, today, n - 1);
      } else {
        DailyAllowance(m, today, n - 1);
      }
    }
  }

  /**
   * A fresh anonymous visitor with nothing stored: after the effect, three
   * calls leave 2, 1 and 0 uses, and the fourth is refused.
   */
  lemma ThreeFreeUses(today: string)
    ensures var m0 := Init(Anonymous, Mount(None), today);
      && m0.remaining == Finite(3)
      && m0.storage.None?
      && var o1 := UseAnalysis(Anonymous, m0, today);
      && o1.Returned? && o1.allowed && o1.meter.remaining == Finite(2)
      && var o2 := UseAnalysis(Anonymous, o1.meter, today);
      && o2.Returned? && o2.allowed && o2.meter.remaining == Finite(1)
      && var o3 := UseAnalysis(Anonymous, o2.meter, today);
      && o3.Returned? && o3.allowed && o3.meter.remaining == Finite(0)
      && o3.meter.storage == Some(Valid(UsageData(3, today)))
      && UseAnalysis(Anonymous, o3.meter, today) == Returned(false, o3.meter)
  {
  }

  /**
   * A record of another day counts as nothing stored: the effect and the
   * next use give the same remaining counts as with an empty storage.
   */
  lemma StaleRecordIsAbsent(stale: UsageData, m: Meter, today: string)
    requires stale.lastReset != today
    ensures var withStale := Init(Anonymous, m.(storage := Some(Valid(stale))), today);
      var empty := Init(Anonymous, m.(storage := None), today);
      && withStale.remaining == empty.remaining == Finite(MaxFreeUses)
      && withStale.storage == Some(Valid(UsageData(0, today)))
      && UseAnalysis(Anonymous, withStale, today) == UseAnalysis(Anonymous, empty, today)
  {
  }

  /**
   * The remaining count is read from memory, not re-derived from storage:
   * when the day changes while the state still holds yesterday's zero, the
   * call is refused although the policy for the new day allows three uses.
   */
  lemma DayRolloverKeepsMemory(yesterday: string, today: string)
    requires yesterday != today
    ensures var m := Meter(Some(Valid(UsageData(3, yesterday))), Finite(0), false);
      && Consistent(m, yesterday)
      && Policy(Anonymous, m.storage, today) == Finite(MaxFreeUses)
      && UseAnalysis(Anonymous, m, today) == Returned(false, m)
  {
  }

  /**
   * Two calls through the `useAnalysis` of one render both see the
   * remaining count captured at that render, while each re-reads storage.
   * With one use left, both are allowed and the stored count passes the
   * daily limit. The sequential lemmas above assume a render between calls.
   */
  lemma SameRenderOverrun(today: string)
    ensures var m := Meter(Some(Valid(UsageData(2, today))), Finite(1), false);
      var first := UseAnalysis(Anonymous, m, today);
      var second := UseAnalysis(Anonymous, m.(storage := first.meter.storage), today);
      && Consistent(m, today)
      && first == Returned(true, first.meter) && second == Returned(true, second.meter)
      && second.meter.storage == Some(Valid(UsageData(MaxFreeUses + 1, today)))
  {
  }
}
