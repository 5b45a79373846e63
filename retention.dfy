/** The clock/window calculator: the purge date before which a deleted stack
    is old enough to have its bucket removed. Times are integer seconds. */
module Retention {

  /** CloudFormation keeps the records of deleted stacks for 90 days only. */
  const MaxDaysFromDeletion: int := 90

  const SecondsPerDay: int := 86400

  /** The day count actually used: a request of 90 days or more is reset to 90,
      i.e. the smaller of the request and the retention window. */
  function EffectiveDays(requested: int): (days: int)
    ensures days <= requested && days <= MaxDaysFromDeletion
    ensures days == requested || days == MaxDaysFromDeletion
  {
    if requested >= MaxDaysFromDeletion then MaxDaysFromDeletion else requested
  }

  /** The instant `days` whole days before `now`. */
  function PurgeDate(now: int, days: int): (cutoff: int)
    ensures (now - cutoff) % SecondsPerDay == 0 && (now - cutoff) / SecondsPerDay == days
  {
    now - days * SecondsPerDay
  }

  /** The cutoff that the stack matcher compares deletion times against. */
  function Cutoff(now: int, requested: int): (cutoff: int)
    ensures cutoff >= now - MaxDaysFromDeletion * SecondsPerDay
    ensures requested < MaxDaysFromDeletion ==> cutoff == now - requested * SecondsPerDay
    ensures requested >= MaxDaysFromDeletion ==> cutoff == now - MaxDaysFromDeletion * SecondsPerDay
  {
    PurgeDate(now, EffectiveDays(requested))
  }

  /** Asking for a longer retention never moves the cutoff later. */
  lemma CutoffAntitone(now: int, shorter: int, longer: int)
    requires shorter <= longer
    ensures Cutoff(now, longer) <= Cutoff(now, shorter)
  {
  }
}
