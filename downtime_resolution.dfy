/** Resolution of cached downtimes (`doCache`): which of the cached downtimes
    of one element is reported at a target instant. The source sorts the rows
    and scans them; here the chosen row is characterised by its place in the
    sort order, which is what the sort followed by the scan guarantees. */
module DowntimeResolution {
  import opened Wrappers
  import opened Strings
  import opened DowntimeTypes

  /** `StartDate < target < EndDate`, both strict. */
  predicate Overlaps(r: DowntimeRecord, target: int) {
    r.startDate < target && r.endDate > target
  }

  /** Now, or `hours` hours (3600 seconds each) after now. */
  function TargetInstant(now: int, hours: Option<int>): (t: int)
    ensures hours.None? ==> t == now
    ensures hours.Some? ==> t - now == 3600 * hours.value
  {
    match hours
    case None => now
    case Some(h) => now + h * 3600
  }

  // ---------------------------------------------------------------------------
  // The sort keys: (Name, Severity, StartDate) and (Name, Severity, EndDate)
  // ---------------------------------------------------------------------------

  /** Lexicographic order of (name, severity, date) triples, strings ordered
      as Python orders them. */
  predicate KeyLess(n1: string, s1: string, d1: int, n2: string, s2: string, d2: int) {
    StrLess(n1, n2) || (n1 == n2 && (StrLess(s1, s2) || (s1 == s2 && d1 < d2)))
  }

  lemma KeyLessTransitive(n1: string, s1: string, d1: int, n2: string, s2: string, d2: int,
                          n3: string, s3: string, d3: int)
    requires KeyLess(n1, s1, d1, n2, s2, d2) && KeyLess(n2, s2, d2, n3, s3, d3)
    ensures KeyLess(n1, s1, d1, n3, s3, d3)
  {
    if StrLess(n1, n2) && StrLess(n2, n3) {
      StrLessTransitive(n1, n2, n3);
    } else if n1 == n2 && n2 == n3 && StrLess(s1, s2) && StrLess(s2, s3) {
      StrLessTransitive(s1, s2, s3);
    }
  }

  /** Two triples either coincide or one sorts strictly before the other,
      never both. */
  lemma KeyLessTrichotomy(n1: string, s1: string, d1: int, n2: string, s2: string, d2: int)
    ensures (n1, s1, d1) == (n2, s2, d2) || KeyLess(n1, s1, d1, n2, s2, d2) || KeyLess(n2, s2, d2, n1, s1, d1)
    ensures !(KeyLess(n1, s1, d1, n2, s2, d2) && KeyLess(n2, s2, d2, n1, s1, d1))
  {
    StrLessIrreflexive(n1);
    StrLessIrreflexive(s1);
    if n1 != n2 {
      StrLessTotal(n1, n2);
      if StrLess(n1, n2) { StrLessAsymmetric(n1, n2); } else { StrLessAsymmetric(n2, n1); }
    } else if s1 != s2 {
      StrLessTotal(s1, s2);
      if StrLess(s1, s2) { StrLessAsymmetric(s1, s2); } else { StrLessAsymmetric(s2, s1); }
    }
  }

  /** The order of the sort used when looking ahead. */
  predicate StartOrderLess(a: DowntimeRecord, b: DowntimeRecord) {
    KeyLess(a.name, a.severity, a.startDate, b.name, b.severity, b.startDate)
  }

  /** The order of the sort used when looking at the present. */
  predicate EndOrderLess(a: DowntimeRecord, b: DowntimeRecord) {
    KeyLess(a.name, a.severity, a.endDate, b.name, b.severity, b.endDate)
  }

  /** Severity is compared upper-cased. */
  predicate IsOutage(r: DowntimeRecord) {
    Upper(r.severity) == "OUTAGE"
  }

  predicate IsWarning(r: DowntimeRecord) {
    Upper(r.severity) == "WARNING"
  }

  // ---------------------------------------------------------------------------
  // Looking ahead (hours given): the first overlapping row in
  // (Name, Severity, StartDate) order
  // ---------------------------------------------------------------------------

  ghost predicate FuturePick(rows: set<DowntimeRecord>, target: int, o: Option<DowntimeRecord>) {
    match o
    case None => forall r | r in rows :: !Overlaps(r, target)
    case Some(c) =>
      && c in rows && Overlaps(c, target)
      && forall r | r in rows && Overlaps(r, target) :: !StartOrderLess(r, c)
  }

  // ---------------------------------------------------------------------------
  // The present (no hours): the last overlapping OUTAGE in
  // (Name, Severity, EndDate) order, else the last overlapping WARNING;
  // rows of any other severity are ignored
  // ---------------------------------------------------------------------------

  /** Overlapping, and an outage (or a warning, when `outage` is false). */
  predicate Candidate(r: DowntimeRecord, target: int, outage: bool) {
    Overlaps(r, target) && (if outage then IsOutage(r) else IsWarning(r))
  }

  ghost predicate NoCandidate(rows: set<DowntimeRecord>, target: int, outage: bool) {
    forall r | r in rows :: !Candidate(r, target, outage)
  }

  ghost predicate LatestCandidate(rows: set<DowntimeRecord>, target: int, outage: bool, c: DowntimeRecord) {
    && c in rows && Candidate(c, target, outage)
    && forall r | r in rows && Candidate(r, target, outage) :: !EndOrderLess(c, r)
  }

  ghost predicate PresentPick(rows: set<DowntimeRecord>, target: int, o: Option<DowntimeRecord>) {
    match o
    case None => NoCandidate(rows, target, true) && NoCandidate(rows, target, false)
    case Some(c) =>
      || LatestCandidate(rows, target, true, c)
      || (NoCandidate(rows, target, true) && LatestCandidate(rows, target, false, c))
  }

  // ---------------------------------------------------------------------------
  // Properties of the two policies
  // ---------------------------------------------------------------------------

  /** Looking ahead, the answer is fixed by the rows and the target up to
      rows that tie on the whole sort key. */
  lemma FuturePickDeterministic(rows: set<DowntimeRecord>, target: int, o1: Option<DowntimeRecord>,
                                o2: Option<DowntimeRecord>)
    requires FuturePick(rows, target, o1) && FuturePick(rows, target, o2)
    ensures o1.None? <==> o2.None?
    ensures o1.Some? && o2.Some? ==>
              (o1.value.name, o1.value.severity, o1.value.startDate) ==
              (o2.value.name, o2.value.severity, o2.value.startDate)
  {
    if o1.Some? && o2.Some? {
      var a, b := o1.value, o2.value;
      KeyLessTrichotomy(a.name, a.severity, a.startDate, b.name, b.severity, b.startDate);
    }
  }

  /** In the present, the answer is fixed by the rows and the target up to
      rows that tie on the whole sort key. */
  lemma PresentPickDeterministic(rows: set<DowntimeRecord>, target: int, o1: Option<DowntimeRecord>,
                                 o2: Option<DowntimeRecord>)
    requires PresentPick(rows, target, o1) && PresentPick(rows, target, o2)
    ensures o1.None? <==> o2.None?
    ensures o1.Some? && o2.Some? ==>
              (o1.value.name, o1.value.severity, o1.value.endDate) ==
              (o2.value.name, o2.value.severity, o2.value.endDate)
  {
    if o1.Some? && o2.Some? {
      var a, b := o1.value, o2.value;
      KeyLessTrichotomy(a.name, a.severity, a.endDate, b.name, b.severity, b.endDate);
    }
  }

  /** An overlapping outage always wins over any overlapping warning,
      whatever their durations. */
  lemma OutageDominatesWarning(rows: set<DowntimeRecord>, target: int, o: Option<DowntimeRecord>,
                               outage: DowntimeRecord)
    requires PresentPick(rows, target, o)
    requires outage in rows && Candidate(outage, target, true)
    ensures o.Some? && IsOutage(o.value)
  {
  }

  /** Among overlapping outages of the same name and severity spelling, the
      one ending last is reported. */
  lemma PresentReportsLatestEnding(rows: set<DowntimeRecord>, target: int, c: DowntimeRecord, r: DowntimeRecord)
    requires PresentPick(rows, target, Some(c))
    requires r in rows && Candidate(r, target, IsOutage(c))
    requires r.name == c.name && r.severity == c.severity
    ensures r.endDate <= c.endDate
  {
    StrLessIrreflexive(c.name);
    StrLessIrreflexive(c.severity);
    assert IsOutage(c) ==> LatestCandidate(rows, target, true, c);
    if !IsOutage(c) {
      assert !LatestCandidate(rows, target, true, c);
      assert LatestCandidate(rows, target, false, c);
    }
  }

  /** Looking ahead, among overlapping rows of the same name and severity
      spelling, the one starting first is reported. */
  lemma FutureReportsEarliestStarting(rows: set<DowntimeRecord>, target: int, c: DowntimeRecord, r: DowntimeRecord)
    requires FuturePick(rows, target, Some(c))
    requires r in rows && Overlaps(r, target)
    requires r.name == c.name && r.severity == c.severity
    ensures c.startDate <= r.startDate
  {
    StrLessIrreflexive(c.name);
    StrLessIrreflexive(c.severity);
  }
}
