/** The attendance endpoints: a founder's recent history, the team grid,
    absence reasons, leave requests and the 30-day statistics. */
module AttendanceController {
  import opened Common
  import opened Text
  import opened Models
  import opened Ordering
  import opened Store
  import opened History

  /** How many records `getMyAttendance` returns at most. */
  const HistoryLimit: nat := 30

  /** `getMyAttendance`: the founder's most recent records, newest first. */
  method GetMyAttendance(db: Db, caller: UserId) returns (rs: seq<Attendance>)
    requires db.Valid()
    ensures |rs| <= HistoryLimit
    ensures rs == RecordsNewestFirst(db.attendance, caller)[..Min(HistoryLimit, |DatesOf(db.attendance, caller)|)]
  {
    rs := FindNewestFirst(db.attendance, caller, HistoryLimit);
  }

  /** `requestLeave`, behind the ACTIVE-only route guard: an upsert that
      leaves one LEAVE record for the day, whatever was stored before (PRESENT
      and ABSENT included). A reason field left out of the body keeps the
      stored value, or the null default when the record is new. */
  method RequestLeave(db: Db, caller: UserId, date: string, reason: Field<Option<Reason>>, reasonText: Field<Option<string>>)
    returns (rec: Attendance)
    requires db.Valid() && IsActiveCaller(db, caller)
    modifies db
    ensures db.Valid()
    ensures rec.user == caller && rec.date == date && rec.status == AttendanceStatus.Leave
    ensures (caller, date) in old(db.attendance) ==>
      rec.reason == Patch(reason, old(db.attendance)[(caller, date)].reason)
      && rec.reasonText == Patch(reasonText, old(db.attendance)[(caller, date)].reasonText)
    ensures (caller, date) !in old(db.attendance) ==>
      rec.reason == Patch(reason, None) && rec.reasonText == Patch(reasonText, None)
    ensures db.attendance == old(db.attendance)[(caller, date) := rec]
    ensures unchanged(db`users, db`activities, db`plans, db`requests, db`resets, db`messages)
  {
    match Lookup(db.attendance, (caller, date)) {
      case Some(existing) =>
        rec := existing.(status := AttendanceStatus.Leave,
          reason := Patch(reason, existing.reason), reasonText := Patch(reasonText, existing.reasonText));
      case None =>
        rec := Attendance(caller, date, AttendanceStatus.Leave, Patch(reason, None), Patch(reasonText, None));
    }
    db.SetAttendance(db.attendance[(caller, date) := rec]);
  }

  /** `submitAbsenceReason`: patches the reason of an existing record, and
      only then clears the founder's pending-reason flag. No record is created
      and no status changes; a field left out of the body keeps its value. */
  method SubmitAbsenceReason(db: Db, caller: UserId, date: string, reason: Field<Option<Reason>>, reasonText: Field<Option<string>>)
    returns (r: Option<Attendance>)
    requires db.Valid() && caller in db.users
    modifies db
    ensures db.Valid()
    ensures r.Some? <==> (caller, date) in old(db.attendance)
    ensures r.None? ==> unchanged(db)
    ensures r.Some? ==> var stored := old(db.attendance)[(caller, date)];
      r.value == stored.(reason := Patch(reason, stored.reason), reasonText := Patch(reasonText, stored.reasonText))
    ensures r.Some? ==> r.value.status == old(db.attendance)[(caller, date)].status
    ensures r.Some? ==> db.attendance == old(db.attendance)[(caller, date) := r.value]
    ensures r.Some? ==> db.users == old(db.users)[caller := old(db.users)[caller].(pendingAbsenceReason := false)]
    ensures r.Some? ==> unchanged(db`activities, db`plans, db`requests, db`resets, db`messages)
  {
    r := Lookup(db.attendance, (caller, date));
    if r.Some? {
      r := Some(r.value.(reason := Patch(reason, r.value.reason), reasonText := Patch(reasonText, r.value.reasonText)));
      db.SetAttendance(db.attendance[(caller, date) := r.value]);
      var u := db.users[caller].(pendingAbsenceReason := false);
      UserUpdateKeepsValid(db.users, caller, u);
      db.SetUsers(db.users[caller := u]);
    }
  }

  datatype AttendanceStats = AttendanceStats(
    totalDays: nat,
    presentDays: nat,
    absentDays: nat,
    leaveDays: nat,
    records: seq<Attendance>)

  predicate IsPresent(a: Attendance) { a.status == Present }
  predicate IsAbsent(a: Attendance) { a.status == Absent }
  predicate IsOnLeave(a: Attendance) { a.status == AttendanceStatus.Leave }

  /** Every record is exactly one of PRESENT, ABSENT and LEAVE, so the three
      counts add up to the number of records. */
  lemma {:induction false} StatusCountsPartition(rs: seq<Attendance>)
    ensures CountIf(rs, IsPresent) + CountIf(rs, IsAbsent) + CountIf(rs, IsOnLeave) == |rs|
  {
    if rs != [] {
      StatusCountsPartition(rs[1..]);
    }
  }

  /** The statistics of a list of records. */
  function StatsOf(rs: seq<Attendance>): (s: AttendanceStats)
    ensures s.totalDays == |rs| && s.records == rs
    ensures s.presentDays + s.absentDays + s.leaveDays == s.totalDays
    ensures s.presentDays == |rs| <==> forall i :: 0 <= i < |rs| ==> rs[i].status == Present
  {
    StatusCountsPartition(rs);
    CountIfBound(rs, IsPresent);
    AttendanceStats(|rs|, CountIf(rs, IsPresent), CountIf(rs, IsAbsent), CountIf(rs, IsOnLeave), rs)
  }

  /** The filter `date: { $gte: start }`, keeping order. */
  function Since(rs: seq<Attendance>, start: string): (r: seq<Attendance>)
    ensures |r| <= |rs|
    ensures forall a :: a in r <==> a in rs && !Less(a.date, start)
  {
    if rs == [] then []
    else if !Less(rs[0].date, start) then [rs[0]] + Since(rs[1..], start)
    else Since(rs[1..], start)
  }

  /** Filtering keeps a list in strictly descending date order. */
  lemma {:induction false} SinceDescending(rs: seq<Attendance>, start: string)
    requires forall i, j :: 0 <= i < j < |rs| ==> Less(rs[j].date, rs[i].date)
    ensures forall i, j :: 0 <= i < j < |Since(rs, start)| ==> Less(Since(rs, start)[j].date, Since(rs, start)[i].date)
  {
    if rs != [] {
      var tail := Since(rs[1..], start);
      SinceDescending(rs[1..], start);
      if !Less(rs[0].date, start) {
        var r := [rs[0]] + tail;
        forall i, j | 0 <= i < j < |r|
          ensures Less(r[j].date, r[i].date)
        {
          assert r[j] == tail[j - 1] && r[j] in rs[1..];
          if i > 0 {
            assert r[i] == tail[i - 1];
          }
        }
      }
    }
  }

  function Reverse<T>(s: seq<T>): (r: seq<T>)
    ensures |r| == |s|
    ensures forall i :: 0 <= i < |s| ==> r[i] == s[|s| - 1 - i]
  {
    if s == [] then [] else Reverse(s[1..]) + [s[0]]
  }

  lemma ReverseKeeps<T>(s: seq<T>, x: T)
    requires x in s
    ensures x in Reverse(s)
  {
    var i :| 0 <= i < |s| && s[i] == x;
    assert Reverse(s)[|s| - 1 - i] == x;
  }

  /** The founder's records dated on or after `start`, oldest first: the
      query `find({ user, date: { $gte: start } }).sort({ date: 1 })`. */
  ghost function RecordsSince(att: map<DayKey, Attendance>, user: UserId, start: string): seq<Attendance>
  {
    Reverse(Since(RecordsNewestFirst(att, user), start))
  }

  /** Each record of the 30-day statistics is the founder's stored record of
      its date, dated on or after `start`. */
  lemma RecordsSinceStored(att: map<DayKey, Attendance>, user: UserId, start: string)
    requires AttendanceKeyed(att)
    ensures forall i :: 0 <= i < |RecordsSince(att, user, start)| ==>
      var a := RecordsSince(att, user, start)[i];
      (user, a.date) in att && att[(user, a.date)] == a && !Less(a.date, start)
  {
    var kept := Since(RecordsNewestFirst(att, user), start);
    var rs := RecordsSince(att, user, start);
    RecordsNewestFirstStored(att, user);
    forall i | 0 <= i < |rs|
      ensures (user, rs[i].date) in att && att[(user, rs[i].date)] == rs[i] && !Less(rs[i].date, start)
    {
      assert rs[i] == kept[|kept| - 1 - i] && rs[i] in kept;
    }
  }

  /** The records of the 30-day statistics come in strictly ascending date order. */
  lemma RecordsSinceAscending(att: map<DayKey, Attendance>, user: UserId, start: string)
    requires AttendanceKeyed(att)
    ensures forall i, j :: 0 <= i < j < |RecordsSince(att, user, start)| ==>
      Less(RecordsSince(att, user, start)[i].date, RecordsSince(att, user, start)[j].date)
  {
    var all := RecordsNewestFirst(att, user);
    RecordsNewestFirstDescending(att, user);
    SinceDescending(all, start);
  }

  /** Every stored record of the founder dated on or after `start` is counted. */
  lemma RecordsSinceComplete(att: map<DayKey, Attendance>, user: UserId, start: string, d: string)
    requires AttendanceKeyed(att) && (user, d) in att && !Less(d, start)
    ensures att[(user, d)] in RecordsSince(att, user, start)
  {
    var all := RecordsNewestFirst(att, user);
    RecordsNewestFirstComplete(att, user, d);
    var a := att[(user, d)];
    assert a in all;
    ReverseKeeps(Since(all, start), a);
  }

  /** `getAttendanceStats`; the start date (30 days before today) is a parameter. */
  method GetAttendanceStats(db: Db, caller: UserId, start: string) returns (stats: AttendanceStats)
    requires db.Valid()
    ensures stats == StatsOf(RecordsSince(db.attendance, caller, start))
  {
    ghost var listing := RecordsNewestFirst(db.attendance, caller);
    var all := FindNewestFirst(db.attendance, caller, |DatesOf(db.attendance, caller)|);
    assert all == listing by {
      assert listing[..|listing|] == listing;
    }
    stats := StatsOf(Reverse(Since(all, start)));
  }

  /** A digit of `parseInt` in the given base (10 or 16), if `c` is one. */
  function DigitValue(c: char, base: nat): Option<nat>
  {
    var v :=
      if '0' <= c <= '9' then c as int - '0' as int
      else if 'a' <= c <= 'z' then c as int - 'a' as int + 10
      else if 'A' <= c <= 'Z' then c as int - 'A' as int + 10
      else base;
    if 0 <= v < base then Some(v) else None
  }

  /** The length of the leading run of digits of `s` in `base`. */
  function DigitRun(s: string, base: nat): (n: nat)
    ensures n <= |s|
    ensures forall i :: 0 <= i < n ==> DigitValue(s[i], base).Some?
    ensures n < |s| ==> DigitValue(s[n], base).None?
  {
    if s == [] || DigitValue(s[0], base).None? then 0 else 1 + DigitRun(s[1..], base)
  }

  /** The value of a string of digits, most significant first. */
  function DigitsValue(s: string, base: nat): nat
    requires forall i :: 0 <= i < |s| ==> DigitValue(s[i], base).Some?
  {
    if s == [] then 0 else DigitsValue(s[..|s| - 1], base) * base + DigitValue(s[|s| - 1], base).value
  }

  /** The leading digits of `s` in `base`, read as a number; None when there are none. */
  function LeadingNumber(s: string, base: nat): (r: Option<nat>)
    ensures r.None? <==> DigitRun(s, base) == 0
  {
    var n := DigitRun(s, base);
    if n == 0 then None else Some(DigitsValue(s[..n], base))
  }

  /** An unsigned numeral: a `0x`/`0X` prefix selects base 16, otherwise base 10. */
  function ParseUnsigned(u: string): Option<nat>
  {
    if |u| >= 2 && u[0] == '0' && (u[1] == 'x' || u[1] == 'X') then LeadingNumber(u[2..], 16)
    else LeadingNumber(u, 10)
  }

  /** `parseInt(s)` without a radix: leading whitespace is skipped, then an
      optional sign, then the numeral's leading digits are read and the rest
      ignored. No digits gives NaN (None). */
  function ParseInt(s: string): Option<int>
  {
    var t := TrimStart(s);
    if t != [] && t[0] == '-' then
      match ParseUnsigned(t[1..])
      case None => None
      case Some(v) => var n: int := v; Some(-n)
    else if t != [] && t[0] == '+' then
      match ParseUnsigned(t[1..])
      case None => None
      case Some(v) => Some(v)
    else
      match ParseUnsigned(t)
      case None => None
      case Some(v) => Some(v)
  }

  /** A missing-looking (blank) parameter is NaN. */
  lemma ParseIntBlank(s: string)
    requires forall i :: 0 <= i < |s| ==> IsWhitespace(s[i])
    ensures ParseInt(s).None?
  {
    assert TrimStart(s) == [];
    assert DigitRun([], 10) == 0;
  }

  /** A string of decimal digits parses to its value. */
  lemma ParseIntDecimal(s: string)
    requires s != [] && forall i :: 0 <= i < |s| ==> '0' <= s[i] <= '9'
    ensures ParseInt(s) == Some(DigitsValue(s, 10))
  {
    assert TrimStart(s) == s;
    assert !('0' == s[0] && |s| >= 2 && (s[1] == 'x' || s[1] == 'X'));
    DigitRunAll(s, 10);
    assert s[..|s|] == s;
  }

  lemma {:induction false} DigitRunAll(s: string, base: nat)
    requires forall i :: 0 <= i < |s| ==> DigitValue(s[i], base).Some?
    ensures DigitRun(s, base) == |s|
  {
    if s != [] {
      DigitRunAll(s[1..], base);
    }
  }

  /** `parseInt(req.query.days) || 30`: a missing, non-numeric or zero
      parameter gives 30 days. */
  function TeamDays(days: Option<string>): (r: int)
    ensures r != 0
    ensures days.None? ==> r == 30
    ensures days.Some? && ParseInt(days.value).Some? && ParseInt(days.value).value != 0 ==> r == ParseInt(days.value).value
    ensures days.Some? && (ParseInt(days.value).None? || ParseInt(days.value) == Some(0)) ==> r == 30
  {
    if days.None? then 30
    else match ParseInt(days.value)
      case None => 30
      case Some(n) => if n == 0 then 30 else n
  }

  /** The team grid of `getTeamAttendance`: date -> founder -> record, for
      every record dated on or after `start`. Each (date, founder) cell holds
      the one stored record of that founder and day. */
  method GroupTeamAttendance(att: map<DayKey, Attendance>, start: string)
    returns (grouped: map<string, map<UserId, Attendance>>)
    requires AttendanceKeyed(att)
    ensures forall d, u :: d in grouped && u in grouped[d] ==>
      (u, d) in att && !Less(d, start) && grouped[d][u] == att[(u, d)]
    ensures forall k :: k in att && !Less(k.1, start) ==> k.1 in grouped && k.0 in grouped[k.1]
  {
    grouped := map[];
    var selected := set k | k in att && !Less(k.1, start);
    var pending := selected;
    while pending != {}
      invariant pending <= selected
      invariant forall d, u :: d in grouped && u in grouped[d] ==>
        (u, d) in att && !Less(d, start) && grouped[d][u] == att[(u, d)]
      invariant forall k :: k in selected && k !in pending ==> k.1 in grouped && k.0 in grouped[k.1]
      decreases |pending|
    {
      var k :| k in pending;
      var record := att[k];
      var day := if record.date in grouped then grouped[record.date] else map[];
      grouped := grouped[record.date := day[record.user := record]];
      pending := pending - {k};
    }
  }
}
