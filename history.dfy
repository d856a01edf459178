/** A founder's attendance history as the store returns it:
    `Attendance.find({ user }).sort({ date: -1 }).limit(n)`. */
module History {
  import opened Common
  import opened Models
  import opened Ordering

  /** The dates on which `user` has a record. */
  function DatesOf(att: map<DayKey, Attendance>, user: UserId): (ds: set<string>)
    ensures forall d :: d in ds <==> (user, d) in att
  {
    set k | k in att && k.0 == user :: k.1
  }

  /** All of the founder's records, most recent date first. */
  ghost function RecordsNewestFirst(att: map<DayKey, Attendance>, user: UserId): (rs: seq<Attendance>)
    ensures |rs| == |DatesOf(att, user)|
  {
    var ds := NewestFirstOf(DatesOf(att, user));
    NewestFirstOfMeaning(DatesOf(att, user));
    seq(|ds|, i requires 0 <= i < |ds| => att[(user, ds[i])])
  }

  /** Each entry of the listing is the stored record of its own date. */
  lemma RecordsNewestFirstStored(att: map<DayKey, Attendance>, user: UserId)
    requires AttendanceKeyed(att)
    ensures forall i :: 0 <= i < |RecordsNewestFirst(att, user)| ==>
      var r := RecordsNewestFirst(att, user)[i]; (user, r.date) in att && att[(user, r.date)] == r
  {
    NewestFirstOfMeaning(DatesOf(att, user));
  }

  /** The dates strictly decrease along the listing. */
  lemma RecordsNewestFirstDescending(att: map<DayKey, Attendance>, user: UserId)
    requires AttendanceKeyed(att)
    ensures forall i, j :: 0 <= i < j < |RecordsNewestFirst(att, user)| ==>
      Less(RecordsNewestFirst(att, user)[j].date, RecordsNewestFirst(att, user)[i].date)
  {
    var ds := NewestFirstOf(DatesOf(att, user));
    NewestFirstOfMeaning(DatesOf(att, user));
    var rs := RecordsNewestFirst(att, user);
    assert forall i :: 0 <= i < |rs| ==> rs[i].date == ds[i];
  }

  /** Every record of the founder appears in the listing. */
  lemma RecordsNewestFirstComplete(att: map<DayKey, Attendance>, user: UserId, d: string)
    requires AttendanceKeyed(att) && (user, d) in att
    ensures exists i :: 0 <= i < |RecordsNewestFirst(att, user)| && RecordsNewestFirst(att, user)[i] == att[(user, d)]
  {
    var ds := NewestFirstOf(DatesOf(att, user));
    NewestFirstOfMeaning(DatesOf(att, user));
    var rs := RecordsNewestFirst(att, user);
    assert d in ds;
    var i :| 0 <= i < |ds| && ds[i] == d;
    assert rs[i] == att[(user, d)];
  }

  /** The query: at most `limit` of the founder's records, most recent first. */
  method FindNewestFirst(att: map<DayKey, Attendance>, user: UserId, limit: nat) returns (rs: seq<Attendance>)
    ensures rs == RecordsNewestFirst(att, user)[..Min(limit, |DatesOf(att, user)|)]
  {
    var dates := DatesOf(att, user);
    var ds := NewestFirst(dates, limit);
    NewestFirstOfMeaning(dates);
    assert forall i :: 0 <= i < |ds| ==> ds[i] in NewestFirstOf(dates);
    rs := seq(|ds|, i requires 0 <= i < |ds| => att[(user, ds[i])]);
  }
}
