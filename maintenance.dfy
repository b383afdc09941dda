/** The maintenance purge, `POST /api/maintenance/clean`: an administrator
    either empties the activity tables (a factory reset) or deletes the
    executions and/or FAQs older than a number of days. */
module Maintenance {
  import opened Common
  import opened Seqs
  import opened Records
  import opened Time
  import opened Store

  /** The body's `type`: which tables to clean. Any other string is
      `Unrecognised` and cleans nothing. */
  datatype CleanType = CleanExecutions | CleanFaqs | CleanBoth | FactoryReset | Unrecognised

  /** The response body: the number of rows each delete removed. */
  datatype CleanReport =
    | ResetDone(deletedExecutions: nat, deletedFaqs: nat, deletedLeads: nat)
    | CleanDone(deletedExecutions: nat, deletedFaqs: nat)

  /** `days` is refused when absent, not a number, or zero (`!days`). */
  predicate DaysInvalid(days: Option<int>) {
    days.None? || days.value == 0
  }

  /** `days` days before `now`. */
  function Cutoff(now: int, days: int): (c: int)
    ensures days > 0 ==> c < now
    ensures days < 0 ==> c > now
    ensures now - c == days * DayMs
  {
    now - days * DayMs
  }

  predicate CleansExecutions(t: CleanType) {
    t == CleanExecutions || t == CleanBoth
  }

  predicate CleansFaqs(t: CleanType) {
    t == CleanFaqs || t == CleanBoth
  }

  function StartedAt(e: Execution): int {
    e.startedAt
  }

  function FaqDate(f: Faq): int {
    f.date
  }

  /** The rows a `{ lt: cutoff }` delete removes. */
  function Stale<T>(rows: seq<T>, at: T -> int, cutoff: int): seq<T> {
    Filter(rows, (x: T) => at(x) < cutoff)
  }

  /** The rows it leaves in the table. */
  function Fresh<T>(rows: seq<T>, at: T -> int, cutoff: int): seq<T> {
    Filter(rows, (x: T) => at(x) >= cutoff)
  }

  /** The delete splits the table at the cutoff: every row dated strictly
      before it is removed, every other row stays, nothing else is gained
      or lost, and the count reported is the number of rows that went. */
  lemma PurgeSplits<T>(rows: seq<T>, at: T -> int, cutoff: int)
    ensures forall i :: 0 <= i < |Fresh(rows, at, cutoff)| ==> at(Fresh(rows, at, cutoff)[i]) >= cutoff
    ensures forall i :: 0 <= i < |Stale(rows, at, cutoff)| ==> at(Stale(rows, at, cutoff)[i]) < cutoff
    ensures forall i :: 0 <= i < |rows| && at(rows[i]) >= cutoff ==> rows[i] in Fresh(rows, at, cutoff)
    ensures multiset(Fresh(rows, at, cutoff)) + multiset(Stale(rows, at, cutoff)) == multiset(rows)
    ensures |rows| - |Fresh(rows, at, cutoff)| == |Stale(rows, at, cutoff)|
  {
    FilterComplement(rows, (x: T) => at(x) >= cutoff, (x: T) => at(x) < cutoff);
    FilterPartition(rows, (x: T) => at(x) >= cutoff, (x: T) => at(x) < cutoff);
  }

  /** `execution.deleteMany({ where: { startedAt: { lt: cutoff } } })`. */
  method PurgeExecutions(db: Database, cutoff: int) returns (deleted: nat)
    modifies db
    ensures db.executions == Fresh(old(db.executions), StartedAt, cutoff)
    ensures deleted == |Stale(old(db.executions), StartedAt, cutoff)|
    ensures db.users == old(db.users) && db.pricing == old(db.pricing)
    ensures db.leads == old(db.leads) && db.faqs == old(db.faqs)
  {
    var before := db.executions;
    db.executions := Fresh(before, StartedAt, cutoff);
    PurgeSplits(before, StartedAt, cutoff);
    deleted := |before| - |db.executions|;
  }

  /** `faq.deleteMany({ where: { date: { lt: cutoff } } })`. */
  method PurgeFaqs(db: Database, cutoff: int) returns (deleted: nat)
    modifies db
    ensures db.faqs == Fresh(old(db.faqs), FaqDate, cutoff)
    ensures deleted == |Stale(old(db.faqs), FaqDate, cutoff)|
    ensures db.users == old(db.users) && db.pricing == old(db.pricing)
    ensures db.leads == old(db.leads) && db.executions == old(db.executions)
  {
    var before := db.faqs;
    db.faqs := Fresh(before, FaqDate, cutoff);
    PurgeSplits(before, FaqDate, cutoff);
    deleted := |before| - |db.faqs|;
  }

  /** `POST /api/maintenance/clean`. The checks run in the source's order,
      and a refused request changes nothing:
      - a caller without an ADMIN session gets 401;
      - a factory reset empties the executions, FAQs and leads and reports
        how many rows each held, whatever `days` is;
      - otherwise an invalid `days` gets 400;
      - otherwise each selected table loses exactly its rows dated before
        the cutoff, a table not selected keeps all its rows and reports 0.
      Users and prices are never touched. */
  method Clean(db: Database, session: Option<Session>, cleanType: CleanType, days: Option<int>, now: int)
    returns (r: Result<CleanReport>)
    modifies db
    ensures db.users == old(db.users) && db.pricing == old(db.pricing)
    ensures old(db.Valid()) ==> db.Valid()
    ensures !IsAdmin(session) ==> r == Err(Unauthorized) && unchanged(db)
    ensures IsAdmin(session) && cleanType == FactoryReset ==>
      && db.executions == [] && db.faqs == [] && db.leads == []
      && r == Ok(ResetDone(|old(db.executions)|, |old(db.faqs)|, |old(db.leads)|))
    ensures IsAdmin(session) && cleanType != FactoryReset && DaysInvalid(days) ==>
      r == Err(BadRequest(InvalidDays)) && unchanged(db)
    ensures IsAdmin(session) && cleanType != FactoryReset && !DaysInvalid(days) ==>
      var cutoff := Cutoff(now, days.value);
      && db.leads == old(db.leads)
      && db.executions == (if CleansExecutions(cleanType) then Fresh(old(db.executions), StartedAt, cutoff)
                           else old(db.executions))
      && db.faqs == (if CleansFaqs(cleanType) then Fresh(old(db.faqs), FaqDate, cutoff) else old(db.faqs))
      && r == Ok(CleanDone(
           if CleansExecutions(cleanType) then |Stale(old(db.executions), StartedAt, cutoff)| else 0,
           if CleansFaqs(cleanType) then |Stale(old(db.faqs), FaqDate, cutoff)| else 0))
  {
    if !IsAdmin(session) {
      return Err(Unauthorized);
    }
    if cleanType == FactoryReset {
      var deletedExecutions := |db.executions|;
      var deletedFaqs := |db.faqs|;
      var deletedLeads := |db.leads|;
      db.executions := [];
      db.faqs := [];
      db.leads := [];
      return Ok(ResetDone(deletedExecutions, deletedFaqs, deletedLeads));
    }
    if DaysInvalid(days) {
      return Err(BadRequest(InvalidDays));
    }
    var cutoff := Cutoff(now, days.value);
    var deletedExecutions: nat := 0;
    var deletedFaqs: nat := 0;
    if CleansExecutions(cleanType) {
      deletedExecutions := PurgeExecutions(db, cutoff);
    }
    if CleansFaqs(cleanType) {
      deletedFaqs := PurgeFaqs(db, cutoff);
    }
    r := Ok(CleanDone(deletedExecutions, deletedFaqs));
  }
}
