/** Period calendars as the second instance of the revision store. */
module AcademicPeriodStorage {
  import opened AcademicPeriods
  import opened RevisionStore
  import opened RevisionHistory

  function CalendarRules(): Rules<Calendar> {
    Rules((c: Calendar) => c.revision, (a: Calendar, b: Calendar) => CalendarTransition(a, b))
  }

  lemma CalendarRulesHold()
    ensures Raising(CalendarRules()) && TransitiveStep(CalendarRules())
  {
    hide PeriodsPreserved;
    forall a: Calendar, b: Calendar, c: Calendar | CalendarTransition(a, b) && CalendarTransition(b, c)
      ensures CalendarTransition(a, c)
    {
      PreservedTransitive(IndexOf(a.periods), IndexOf(b.periods), IndexOf(c.periods));
    }
  }

  lemma PreservedTransitive(a: Index, b: Index, c: Index)
    requires PeriodsPreserved(a, b) && PeriodsPreserved(b, c)
    ensures PeriodsPreserved(a, c)
  {
  }

  predicate HasPeriod(c: Calendar, id: string, periodType: string) {
    id in IndexOf(c.periods) && IndexOf(c.periods)[id].periodType == periodType
  }

  /**
   A period id never vanishes and never changes its type: a period in any stored revision up
   to the pointer is, at every later time, in the selected calendar and in every stored
   revision between the two, with the same type. Crashes, failed cleanups and competing
   writers included.
   */
  lemma PeriodsNeverVanish(trace: seq<World<Calendar>>, events: seq<Event<Calendar>>, i: nat, j: nat,
                           n: int, id: string, periodType: string)
    requires Run(CalendarRules(), trace, events) && Initial(trace[0]) && i <= j < |trace|
    requires trace[i].store.pointer.Some? && n <= trace[i].store.pointer.value
    requires n in trace[i].store.revisions && trace[i].store.revisions[n].Complete?
    requires HasPeriod(trace[i].store.revisions[n].value, id, periodType)
    ensures var s := trace[j].store;
            && s.pointer.Some? && s.pointer.value >= trace[i].store.pointer.value
            && (forall m | m in s.revisions && n <= m <= s.pointer.value ::
                  s.revisions[m].Complete? && HasPeriod(s.revisions[m].value, id, periodType))
            && s.pointer.value in s.revisions
  {
    hide Run, CalendarTransition, PeriodsPreserved;
    var u := CalendarRules();
    CalendarRulesHold();
    PointerRises(trace, events, i, j);
    StoreStaysSound(u, trace, events, j);
    StoreStaysSound(u, trace, events, i);
    var s := trace[j].store;
    var was := trace[i].store.revisions[n].value;
    StaysStored(trace, events, i, j, n);
    forall m | m in s.revisions && n <= m <= s.pointer.value
      ensures s.revisions[m].Complete? && HasPeriod(s.revisions[m].value, id, periodType)
    {
      if n < m { PeriodIsKept(was, s.revisions[m].value, id, periodType); }
    }
  }

  lemma PeriodIsKept(a: Calendar, b: Calendar, id: string, periodType: string)
    requires CalendarTransition(a, b) && HasPeriod(a, id, periodType)
    ensures HasPeriod(b, id, periodType)
  {
  }

  /** The selected revision number never goes back. */
  lemma PointerRises(trace: seq<World<Calendar>>, events: seq<Event<Calendar>>, i: nat, j: nat)
    requires Run(CalendarRules(), trace, events) && Initial(trace[0]) && i <= j < |trace|
    requires trace[i].store.pointer.Some?
    ensures trace[j].store.pointer.Some? && trace[j].store.pointer.value >= trace[i].store.pointer.value
  {
    hide Run, CalendarTransition;
    var u := CalendarRules();
    CalendarRulesHold();
    InvariantOverRuns(u, trace, events, i);
    InvariantOverRuns(u, trace, events, j);
    HistoryOnlyGrows(u, trace, events, i, j);
    var h, t := trace[i].history, trace[j].history;
    assert t[|h| - 1] == h[|h| - 1];
    if |h| < |t| { HistoryRises(u, t, |h| - 1, |t| - 1); }
  }

  lemma StaysStored(trace: seq<World<Calendar>>, events: seq<Event<Calendar>>, i: nat, j: nat, n: int)
    requires Run(CalendarRules(), trace, events) && Initial(trace[0]) && i <= j < |trace|
    requires trace[i].store.pointer.Some? && n <= trace[i].store.pointer.value
    requires n in trace[i].store.revisions && trace[i].store.revisions[n].Complete?
    ensures n in trace[j].store.revisions && trace[j].store.revisions[n] == trace[i].store.revisions[n]
  {
    hide Run, CalendarTransition;
    var u := CalendarRules();
    CalendarRulesHold();
    InvariantOverRuns(u, trace, events, i);
    assert !Beyond(u, trace[i], n);
    var k :| 0 <= k < |trace[i].history| && u.rev(trace[i].history[k]) == n;
    SelectedStaysStored(u, trace, events, i, j, trace[i].history[k]);
  }
}
