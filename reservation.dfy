// The reservation daemon's tables (bin/daemons/reservationdaemon.py): a
// dictionary from user name to that user's reservations, the rights that
// lengthen how long a user may hold devices, the next reservation id and the
// notifications database. Days are date ordinals (module Dates); the current
// day, the outcome of each disk write and of each email are inputs.

module Reservation {
  import opened Common
  import opened Dates

  /** ReservationEntry: who holds which devices until which day, under which id. */
  datatype Entry = Entry(username: string, email: string, devices: seq<string>, endDate: Day, id: int)

  /** ReservationRight: devices a user may hold longer; maxweeks is the text of the XML attribute. */
  datatype Right = Right(username: string, email: string, devices: seq<string>, maxWeeks: string, rightID: string)

  // ---------------------------------------------------------------------
  // Dates as text

  /** getDDMMYYYYDate and __convertDateToString: day/month/year, without padding. */
  function DateString(o: Day): string
  {
    var c := FromOrdinal(o);
    IntToString(c.day) + "/" + IntToString(c.month) + "/" + IntToString(c.year)
  }

  /**
   * __convertToDate: date(int(f[2]), int(f[1]), int(f[0])) of the fields
   * between slashes; None where that raises IndexError or ValueError.
   */
  function ConvertToDate(s: string): Option<Day>
  {
    var f := Split(s, '/');
    if |f| < 3 then None
    else
      var y, m, d := ParseInt(f[2]), ParseInt(f[1]), ParseInt(f[0]);
      if y.None? || m.None? || d.None? || !ValidDate(y.value, m.value, d.value) then None
      else
        FromToOrdinal(y.value, m.value, d.value);
        Some(ToOrdinal(y.value, m.value, d.value))
  }

  lemma NoSlash(n: int)
    requires n >= 0
    ensures '/' !in IntToString(n)
  {
    var s := IntToString(n);
    assert s == NatToString(n);
    assert forall i :: 0 <= i < |s| ==> s[i] != '/';
  }

  /** The date a reservation is written to disk with reads back as the same day. */
  lemma DateStringRoundTrip(o: Day)
    ensures ConvertToDate(DateString(o)) == Some(o)
  {
    var c := FromOrdinal(o);
    var ds, ms, ys := IntToString(c.day), IntToString(c.month), IntToString(c.year);
    NoSlash(c.day);
    NoSlash(c.month);
    NoSlash(c.year);
    var parts := [ds, ms, ys];
    assert parts[1..] == [ms, ys] && parts[1..][1..] == [ys];
    assert JoinWith(parts[1..], "/") == ms + "/" + ys;
    assert JoinWith(parts, "/") == ds + "/" + (ms + "/" + ys);
    assert DateString(o) == JoinWith(parts, "/");
    SplitJoin(parts, '/');
    ParseIntOfIntToString(c.day);
    ParseIntOfIntToString(c.month);
    ParseIntOfIntToString(c.year);
    ToFromOrdinal(o);
  }

  // ---------------------------------------------------------------------
  // Device lists of a reservation

  /** The list appendDevices leaves: each new device at the end, in order, once. */
  function Appended(current: seq<string>, devices: seq<string>): seq<string>
    decreases |devices|
  {
    if |devices| == 0 then current
    else
      var r := Appended(current, devices[..|devices| - 1]);
      var d := devices[|devices| - 1];
      if d in r then r else r + [d]
  }

  /** appendDevices: adds every device of the list that the reservation does not hold yet. */
  method AppendDevices(current: seq<string>, devices: seq<string>) returns (r: seq<string>)
    ensures r == Appended(current, devices)
  {
    r := current;
    for i := 0 to |devices|
      invariant r == Appended(current, devices[..i])
    {
      assert devices[..i + 1][..i] == devices[..i];
      if devices[i] !in r {
        r := r + [devices[i]];
      }
    }
    assert devices[..|devices|] == devices;
  }

  /**
   * The old list stays in front; the devices held afterwards are the old
   * ones and the added ones; nothing added was held before or is added twice.
   */
  lemma {:induction false} AppendedMeaning(current: seq<string>, devices: seq<string>)
    ensures var r := Appended(current, devices);
      |current| <= |r| && r[..|current|] == current &&
      (forall d :: d in r <==> d in current || d in devices) &&
      (forall i :: |current| <= i < |r| ==> r[i] !in current) &&
      (forall i, j :: |current| <= i < j < |r| ==> r[i] != r[j])
    decreases |devices|
  {
    if |devices| > 0 {
      var init := devices[..|devices| - 1];
      AppendedMeaning(current, init);
      assert forall d :: d in devices <==> d in init || d == devices[|devices| - 1];
    }
  }

  /** list.remove: the first occurrence goes; a missing device leaves the list alone. */
  function RemoveFirst(s: seq<string>, x: string): (r: seq<string>)
    ensures multiset(r) == multiset(s) - multiset{x}
    ensures x !in s ==> r == s
    decreases |s|
  {
    if |s| == 0 then s
    else
      assert s == [s[0]] + s[1..];
      if s[0] == x then s[1..] else [s[0]] + RemoveFirst(s[1..], x)
  }

  /** The list removeDevices leaves: one occurrence removed per device named. */
  function Removed(current: seq<string>, devices: seq<string>): seq<string>
    decreases |devices|
  {
    if |devices| == 0 then current
    else RemoveFirst(Removed(current, devices[..|devices| - 1]), devices[|devices| - 1])
  }

  /** removeDevices: removes each named device, ignoring the ValueError of one not held. */
  method RemoveDevices(current: seq<string>, devices: seq<string>) returns (r: seq<string>)
    ensures r == Removed(current, devices)
  {
    r := current;
    for i := 0 to |devices|
      invariant r == Removed(current, devices[..i])
    {
      assert devices[..i + 1][..i] == devices[..i];
      r := RemoveFirst(r, devices[i]);
    }
    assert devices[..|devices|] == devices;
  }

  /** What removeDevices takes away is counted out of the list, as a multiset difference. */
  lemma {:induction false} RemovedMeaning(current: seq<string>, devices: seq<string>)
    ensures multiset(Removed(current, devices)) == multiset(current) - multiset(devices)
    decreases |devices|
  {
    if |devices| > 0 {
      var n := |devices| - 1;
      RemovedMeaning(current, devices[..n]);
      var before := Removed(current, devices[..n]);
      assert multiset(Removed(current, devices)) == multiset(before) - multiset{devices[n]};
      MultisetSnoc(devices);
      DifferenceOfDifference(multiset(current), multiset(devices[..n]), multiset{devices[n]});
    }
  }

  lemma MultisetSnoc(s: seq<string>)
    requires |s| > 0
    ensures multiset(s) == multiset(s[..|s| - 1]) + multiset{s[|s| - 1]}
  {
    assert s == s[..|s| - 1] + [s[|s| - 1]];
  }

  lemma DifferenceOfDifference(a: multiset<string>, b: multiset<string>, c: multiset<string>)
    ensures a - b - c == a - (b + c)
  {
  }

  // ---------------------------------------------------------------------
  // The reservation table

  /** The dictionary of the daemon: user name to that user's reservations. */
  type Table = map<string, seq<Entry>>

  ghost predicate Holds(t: Table, u: string, e: Entry)
  {
    u in t && e in t[u]
  }

  /** __isDeviceInUse: some reservation of some user holds the device. */
  ghost predicate InUse(t: Table, device: string)
  {
    exists u, e :: Holds(t, u, e) && device in e.devices
  }

  /** The first device of the list that is in use, which is the one the error names. */
  ghost function FirstInUse(t: Table, devices: seq<string>): (r: Option<string>)
    ensures r.None? <==> forall d :: d in devices ==> !InUse(t, d)
    ensures r.Some? ==> r.value in devices && InUse(t, r.value)
    decreases |devices|
  {
    if |devices| == 0 then None
    else if InUse(t, devices[0]) then Some(devices[0])
    else FirstInUse(t, devices[1..])
  }

  /** Every id is below n: the invariant that makes the next id fresh. */
  ghost predicate IdsBelow(t: Table, n: int)
  {
    forall u, e :: Holds(t, u, e) ==> e.id < n
  }

  /** h is what __findHighestID returns: the largest id, or 0 for none. */
  ghost predicate IsHighestID(t: Table, h: int)
  {
    h >= 0 && (forall u, e :: Holds(t, u, e) ==> e.id <= h) &&
    (h == 0 || exists u, e :: Holds(t, u, e) && e.id == h)
  }

  /** The id __findHighestID returns is unique, so nextID after it is determined. */
  lemma HighestIDUnique(t: Table, a: int, b: int)
    requires IsHighestID(t, a) && IsHighestID(t, b)
    ensures a == b
  {
  }

  /** After a recount the next id is above every id. */
  lemma HighestIDBelow(t: Table, h: int)
    requires IsHighestID(t, h)
    ensures IdsBelow(t, h + 1)
  {
  }

  /** The reservations of a list that have not expired, in order. */
  function Unexpired(list: seq<Entry>, today: int): (r: seq<Entry>)
    decreases |list|
  {
    if |list| == 0 then []
    else
      var init := Unexpired(list[..|list| - 1], today);
      if list[|list| - 1].endDate < today then init else init + [list[|list| - 1]]
  }

  lemma {:induction false} UnexpiredMeaning(list: seq<Entry>, today: int)
    ensures forall e :: e in Unexpired(list, today) <==> e in list && e.endDate >= today
    decreases |list|
  {
    if |list| > 0 {
      var n := |list| - 1;
      UnexpiredMeaning(list[..n], today);
      assert forall e :: e in list <==> e in list[..n] || e == list[n];
    }
  }

  /** cleanExpired as intended: every reservation whose end day has passed is gone. */
  function Cleaned(t: Table, today: int): Table
  {
    map u | u in t :: Unexpired(t[u], today)
  }

  /** The ids of the reservations that have expired. */
  ghost function ExpiredIds(t: Table, today: int): set<int>
  {
    set u, e | u in t && e in t[u] && e.endDate < today :: e.id
  }

  /** A notifications table without the given reservations. */
  function WithoutIds(n: map<int, int>, ids: set<int>): map<int, int>
  {
    map k | k in n && k !in ids :: n[k]
  }

  /**
   * The notifications table after the reservations with the ids have been
   * released one by one, each release re-reading the notifications file
   * (None: missing or unreadable, and the release then leaves the table
   * alone), dropping its entry and writing the table back.
   */
  function NotesAfter(notes: map<int, int>, file: Option<map<int, int>>, ids: set<int>): map<int, int>
  {
    if file.Some? && ids != {} then WithoutIds(file.value, ids) else notes
  }

  /** The notifications file after those releases. */
  function FileAfter(file: Option<map<int, int>>, ids: set<int>): Option<map<int, int>>
  {
    if file.Some? && ids != {} then Some(WithoutIds(file.value, ids)) else file
  }

  /**
   * Releasing the ids a and then, re-reading what those releases wrote, the
   * ids b is releasing a + b: the order of the releases does not matter and
   * a second removal of the same id changes nothing.
   */
  lemma NotesAfterSplit(notes: map<int, int>, file: Option<map<int, int>>, a: set<int>, b: set<int>)
    ensures NotesAfter(NotesAfter(notes, file, a), FileAfter(file, a), b) == NotesAfter(notes, file, a + b)
    ensures FileAfter(FileAfter(file, a), b) == FileAfter(file, a + b)
  {
    if file.Some? && a != {} && b != {} {
      assert WithoutIds(WithoutIds(file.value, a), b) == WithoutIds(file.value, a + b);
    }
  }

  /**
   * The next id after cleaning: recounted from the cleaned table when a
   * reservation was released and the database written, else unchanged.
   */
  ghost predicate CleanedNextID(t: Table, n0: int, today: int, writeOk: bool, n: int)
  {
    if writeOk && ExpiredIds(t, today) != {} then IsHighestID(Cleaned(t, today), n - 1) else n == n0
  }

  /** The index of the first reservation of a list with the given id. */
  function IndexOfId(list: seq<Entry>, id: int): (r: Option<nat>)
    ensures r.None? <==> forall e :: e in list ==> e.id != id
    ensures r.Some? ==> r.value < |list| && list[r.value].id == id
    ensures r.Some? ==> forall j :: 0 <= j < r.value ==> list[j].id != id
    decreases |list|
  {
    if |list| == 0 then None
    else if list[0].id == id then Some(0)
    else
      var r := IndexOfId(list[1..], id);
      assert forall e :: e in list ==> e == list[0] || e in list[1..];
      if r.None? then None else Some(r.value + 1)
  }

  // ---------------------------------------------------------------------
  // Allocation limits

  /** The cap __getMaxWeeks starts from. */
  const NO_LIMIT := 99999

  predicate CoveredBy(d: string, rights: seq<Right>)
  {
    exists r :: r in rights && d in r.devices
  }

  /** One comparison of the loop, with maxweeks read as a number; None is the ValueError of int(). */
  function Cap(acc: Option<int>, d: string, r: Right): Option<int>
  {
    if acc.None? || d !in r.devices then acc
    else match ParseInt(r.maxWeeks)
      case None => None
      case Some(w) => Some(if w < acc.value then w else acc.value)
  }

  function CapRights(acc: Option<int>, d: string, rights: seq<Right>): Option<int>
    decreases |rights|
  {
    if |rights| == 0 then acc else Cap(CapRights(acc, d, rights[..|rights| - 1]), d, rights[|rights| - 1])
  }

  function CapDevices(devices: seq<string>, rights: seq<Right>): Option<int>
    decreases |devices|
  {
    if |devices| == 0 then Some(NO_LIMIT)
    else CapRights(CapDevices(devices[..|devices| - 1], rights), devices[|devices| - 1], rights)
  }

  /** A right some device of the list falls under. */
  predicate Applies(devices: seq<string>, r: Right)
  {
    exists d :: d in devices && d in r.devices
  }

  /** One comparison: a covering right with a number keeps the smaller value, one without raises. */
  lemma CapStep(acc: Option<int>, d: string, r: Right)
    ensures var c := Cap(acc, d, r);
      (c.Some? <==> acc.Some? && (d in r.devices ==> ParseInt(r.maxWeeks).Some?)) &&
      (c.Some? ==> (c.value <= acc.value && (d in r.devices ==> c.value <= ParseInt(r.maxWeeks).value) &&
        (c.value == acc.value || (d in r.devices && ParseInt(r.maxWeeks) == Some(c.value)))))
  {
  }

  /** The rights of a list are those before its last one and the last one. */
  lemma RightsSnoc(rights: seq<Right>)
    requires |rights| > 0
    ensures forall r :: r in rights <==> r in rights[..|rights| - 1] || r == rights[|rights| - 1]
  {
    var n := |rights| - 1;
    assert rights == rights[..n] + [rights[n]];
  }

  /** The cap is a number exactly when the start is one and every applying right has a number. */
  lemma {:induction false} CapRightsSome(acc: Option<int>, d: string, rights: seq<Right>)
    ensures CapRights(acc, d, rights).Some? <==>
      acc.Some? && forall r :: r in rights && d in r.devices ==> ParseInt(r.maxWeeks).Some?
    decreases |rights|
  {
    if |rights| > 0 {
      var n := |rights| - 1;
      CapRightsSome(acc, d, rights[..n]);
      RightsSnoc(rights);
      CapStep(CapRights(acc, d, rights[..n]), d, rights[n]);
    }
  }

  /** A numeric cap lies at or below the start and the number of every applying right. */
  lemma {:induction false} CapRightsBound(acc: Option<int>, d: string, rights: seq<Right>)
    ensures var c := CapRights(acc, d, rights);
      c.Some? ==>
        acc.Some? && c.value <= acc.value &&
        forall r :: r in rights && d in r.devices ==> ParseInt(r.maxWeeks).Some? && c.value <= ParseInt(r.maxWeeks).value
    decreases |rights|
  {
    if |rights| > 0 {
      var n := |rights| - 1;
      CapRightsBound(acc, d, rights[..n]);
      RightsSnoc(rights);
      CapStep(CapRights(acc, d, rights[..n]), d, rights[n]);
    }
  }

  /** A numeric cap is the start or the number of an applying right. */
  lemma {:induction false} CapRightsAttained(acc: Option<int>, d: string, rights: seq<Right>)
    ensures var c := CapRights(acc, d, rights);
      c.Some? ==>
        acc.Some? && (c.value == acc.value || exists r :: r in rights && d in r.devices && ParseInt(r.maxWeeks) == Some(c.value))
    decreases |rights|
  {
    if |rights| > 0 {
      var n := |rights| - 1;
      var prev, c := CapRights(acc, d, rights[..n]), CapRights(acc, d, rights);
      CapRightsAttained(acc, d, rights[..n]);
      CapStep(prev, d, rights[n]);
      if c.Some? && acc.Some? && c.value != acc.value {
        if c.value == prev.value {
          var r :| r in rights[..n] && d in r.devices && ParseInt(r.maxWeeks) == Some(c.value);
          assert r in rights;
        } else {
          assert rights[n] in rights;
        }
      }
    }
  }

  /** The numbers of the applying rights; None exactly when one of them is not a number. */
  lemma CapRightsMeaning(acc: Option<int>, d: string, rights: seq<Right>)
    ensures var c := CapRights(acc, d, rights);
      (c.Some? <==> acc.Some? && forall r :: r in rights && d in r.devices ==> ParseInt(r.maxWeeks).Some?) &&
      (c.Some? ==> (c.value <= acc.value &&
        (forall r :: r in rights && d in r.devices ==> c.value <= ParseInt(r.maxWeeks).value) &&
        (c.value == acc.value || exists r :: r in rights && d in r.devices && ParseInt(r.maxWeeks) == Some(c.value))))
  {
    CapRightsSome(acc, d, rights);
    CapRightsBound(acc, d, rights);
    CapRightsAttained(acc, d, rights);
  }

  /** A right applies to a list with one more device when it applies to the rest or covers that device. */
  lemma AppliesSnoc(devices: seq<string>)
    requires |devices| > 0
    ensures forall r :: Applies(devices, r) <==>
      Applies(devices[..|devices| - 1], r) || devices[|devices| - 1] in r.devices
  {
    var n := |devices| - 1;
    assert forall x :: x in devices <==> x in devices[..n] || x == devices[n];
  }

  /**
   * The cap is the least maxweeks of the rights that apply to some device,
   * and 99999 when none applies; None when one of them is not a number.
   */
  lemma {:induction false} CapDevicesMeaning(devices: seq<string>, rights: seq<Right>)
    ensures var c := CapDevices(devices, rights);
      (c.Some? <==> forall r :: r in rights && Applies(devices, r) ==> ParseInt(r.maxWeeks).Some?) &&
      (c.Some? ==> (c.value <= NO_LIMIT &&
        (forall r :: r in rights && Applies(devices, r) ==> c.value <= ParseInt(r.maxWeeks).value) &&
        (c.value == NO_LIMIT || exists r :: r in rights && Applies(devices, r) && ParseInt(r.maxWeeks) == Some(c.value))))
    decreases |devices|
  {
    if |devices| > 0 {
      var n := |devices| - 1;
      var init := devices[..n];
      var d := devices[n];
      var prev, c := CapDevices(init, rights), CapDevices(devices, rights);
      assert c == CapRights(prev, d, rights);
      CapDevicesMeaning(init, rights);
      CapRightsMeaning(prev, d, rights);
      AppliesSnoc(devices);
    }
  }

  /**
   * __getMaxWeeks with maxweeks read as a number: the default without rights
   * or devices, or when some device is not covered; else the cap.
   */
  function MaxWeeks(rights: map<string, seq<Right>>, username: string, devices: seq<string>, default: int): Option<int>
  {
    if username !in rights || |devices| == 0 then Some(default)
    else match CapDevices(devices, rights[username])
      case None => None
      case Some(w) => if forall d :: d in devices ==> CoveredBy(d, rights[username]) then Some(w) else Some(default)
  }

  /** The default applies without rights, without devices, or with a device no right covers. */
  lemma MaxWeeksDefault(rights: map<string, seq<Right>>, username: string, devices: seq<string>, default: int)
    ensures username !in rights || |devices| == 0 ==> MaxWeeks(rights, username, devices, default) == Some(default)
    ensures username in rights && (exists d :: d in devices && !CoveredBy(d, rights[username])) ==>
      MaxWeeks(rights, username, devices, default) in {Some(default), None}
  {
  }

  /** With every device covered the limit is the least maxweeks that applies, capped at 99999. */
  lemma MaxWeeksCovered(rights: map<string, seq<Right>>, username: string, devices: seq<string>, default: int)
    requires username in rights && |devices| > 0
    requires forall d :: d in devices ==> CoveredBy(d, rights[username])
    requires MaxWeeks(rights, username, devices, default).Some?
    ensures var w := MaxWeeks(rights, username, devices, default).value;
      w <= NO_LIMIT &&
      (forall r :: r in rights[username] && Applies(devices, r) ==>
        ParseInt(r.maxWeeks).Some? && w <= ParseInt(r.maxWeeks).value) &&
      (w == NO_LIMIT || exists r :: r in rights[username] && Applies(devices, r) && ParseInt(r.maxWeeks) == Some(w))
  {
    CapDevicesMeaning(devices, rights[username]);
  }

  /**
   * __getMaxWeeks as written: maxweeks is a string, and in Python 2 a string
   * never compares below an int, so the cap stays at 99999.
   */
  function MaxWeeksAsWritten(rights: map<string, seq<Right>>, username: string, devices: seq<string>, default: int): (w: int)
    ensures username !in rights || |devices| == 0 ==> w == default
    ensures username in rights && (exists d :: d in devices && !CoveredBy(d, rights[username])) ==> w == default
    ensures username in rights && |devices| > 0 && (forall d :: d in devices ==> CoveredBy(d, rights[username])) ==> w == NO_LIMIT
  {
    if username !in rights || |devices| == 0 then default
    else if forall d :: d in devices ==> CoveredBy(d, rights[username]) then NO_LIMIT
    else default
  }

  /** A right of two weeks on a device gives, as written, 99999 weeks instead of two. */
  lemma MaxWeeksAsWrittenIgnoresRights()
    ensures var rights := map["alice" := [Right("alice", "alice@host", ["computer1"], "2", "1")]];
      MaxWeeksAsWritten(rights, "alice", ["computer1"], 2) == NO_LIMIT &&
      MaxWeeks(rights, "alice", ["computer1"], 2) == Some(2)
  {
    var r := Right("alice", "alice@host", ["computer1"], "2", "1");
    var rights := map["alice" := [r]];
    assert CoveredBy("computer1", rights["alice"]) by {
      assert r in rights["alice"];
    }
    assert ParseInt("2") == Some(2) by {
      assert DigitsValue("2") == 2;
    }
    assert CapRights(Some(NO_LIMIT), "computer1", [r]) == Some(2) by {
      assert [r][..0] == [];
      assert Cap(Some(NO_LIMIT), "computer1", r) == Some(2);
    }
    assert CapDevices(["computer1"], [r]) == Some(2) by {
      assert ["computer1"][..0] == [];
    }
  }

  /** The reply of an operation, or the exception that escapes it. */
  datatype Outcome = Reply(text: string) | Raised(error: Error)

  datatype Error = ValueError | OverflowError

  /** The end day reserve and renew keep: the desired one, or the limit when it lies beyond. */
  function Clamp(endDate: Day, maxDate: Day): (r: Day)
    ensures r <= maxDate && r <= endDate
    ensures r == endDate || r == maxDate
    ensures r == endDate <==> endDate <= maxDate
  {
    if endDate > maxDate then maxDate else endDate
  }

  /** currentDate + timedelta(weeks=w): None for the OverflowError beyond year 9999. */
  function MaxDate(today: Day, w: int): Option<Day>
  {
    AddDays(today, 7 * w)
  }

  /** The devices __getReservedDevicesByID may return: those of a reservation with the id, or none. */
  ghost predicate DevicesOfId(t: Table, id: int, devices: seq<string>)
  {
    if exists u, e :: Holds(t, u, e) && e.id == id
    then exists u, e :: Holds(t, u, e) && e.id == id && e.devices == devices
    else devices == []
  }

  /** The list of a user, empty for a user without one. */
  function Held(t: Table, u: string): seq<Entry>
  {
    if u in t then t[u] else []
  }

  /** A new entry under the next id keeps every id below the incremented next id. */
  lemma StoreIdsBelow(t: Table, u: string, e: Entry, n: int)
    requires IdsBelow(t, n) && e.id == n
    ensures IdsBelow(t[u := Held(t, u) + [e]], n + 1)
    ensures IdsBelow(t[u := Held(t, u)], n + 1)
  {
    var t1 := t[u := Held(t, u) + [e]];
    forall v, x | Holds(t1, v, x)
      ensures x.id < n + 1
    {
      if v == u {
        if x != e {
          assert x in Held(t, u);
          assert Holds(t, u, x);
        }
      } else {
        assert Holds(t, v, x);
      }
    }
    var t2 := t[u := Held(t, u)];
    forall v, x | Holds(t2, v, x)
      ensures x.id < n + 1
    {
      assert Holds(t, v, x);
    }
  }

  /** Cleaning only removes reservations. */
  lemma CleanedWithin(t: Table, today: int)
    ensures forall u, e :: Holds(Cleaned(t, today), u, e) ==> Holds(t, u, e) && e.endDate >= today
  {
    forall u, e | Holds(Cleaned(t, today), u, e)
      ensures Holds(t, u, e) && e.endDate >= today
    {
      UnexpiredMeaning(t[u], today);
    }
  }

  /** The ids stay below nextID across cleaning. */
  lemma CleanedIdsBelow(t: Table, n0: int, today: int, writeOk: bool, n: int)
    requires IdsBelow(t, n0)
    requires CleanedNextID(t, n0, today, writeOk, n)
    ensures IdsBelow(Cleaned(t, today), n)
  {
    CleanedWithin(t, today);
    if writeOk && ExpiredIds(t, today) != {} {
      HighestIDBelow(Cleaned(t, today), n - 1);
    }
  }

  /** The note reserve and renew add when they cut the end day. */
  function TrimNote(trimmed: bool, maxNumWeeks: int): string
  {
    if trimmed then "\nnote: the desired date was ignored because the max allocation period is " +
      IntToString(maxNumWeeks) + " week(s)"
    else ""
  }

  function ReservedMessage(id: int, endDate: Day, trimmed: bool, maxNumWeeks: int): string
  {
    "reservation succeeded (id = " + IntToString(id) + ", end date=" + DateString(endDate) + ")" +
    TrimNote(trimmed, maxNumWeeks)
  }

  function RenewedMessage(endDate: Day, trimmed: bool, maxNumWeeks: int): string
  {
    "reservation renewed (new end date=" + DateString(endDate) + ")" + TrimNote(trimmed, maxNumWeeks)
  }

  /** A table whose ids are below n stays so when a user's list is replaced by one whose ids are. */
  lemma IdsBelowUpdate(t: Table, u: string, list: seq<Entry>, n: int)
    requires IdsBelow(t, n)
    requires forall e :: e in list ==> e.id < n
    ensures IdsBelow(t[u := list], n)
  {
    var t2 := t[u := list];
    forall v: string, x: Entry | v in t2 && x in t2[v]
      ensures x.id < n
    {
      if v != u {
        assert Holds(t, v, x);
      }
    }
    assert forall v, x :: Holds(t2, v, x) ==> x.id < n;
  }

  /** ... and so it does when one reservation is replaced by one with the same id. */
  lemma ReplaceIdsBelow(t: Table, u: string, k: nat, e: Entry, n: int)
    requires IdsBelow(t, n)
    requires u in t && k < |t[u]| && e.id == t[u][k].id
    ensures IdsBelow(t[u := t[u][k := e]], n)
  {
    var list := t[u][k := e];
    forall x | x in list
      ensures x.id < n
    {
      var j :| 0 <= j < |list| && list[j] == x;
      assert Holds(t, u, t[u][j]);
    }
    IdsBelowUpdate(t, u, list, n);
  }

  /** The reply of renew and update when the user has no reservation with the id. */
  function NotFoundMessage(id: int, username: string): string
  {
    "no reservation found for id=" + IntToString(id) + " and username=" + username
  }

  /** The device list update leaves: added for "add", removed for "remove", else as it was. */
  function NewDevices(current: seq<string>, op: string, devices: seq<string>): seq<string>
  {
    if op == "add" then Appended(current, devices)
    else if op == "remove" then Removed(current, devices)
    else current
  }

  /** The reservation after update: new devices, and the new address when one is given. */
  function Changed(e: Entry, op: string, devices: seq<string>, email: Option<string>): (r: Entry)
    ensures r.username == e.username && r.id == e.id && r.endDate == e.endDate
    ensures r.email == (if email.Some? then email.value else e.email)
  {
    e.(devices := NewDevices(e.devices, op, devices), email := if email.Some? then email.value else e.email)
  }

  /**
   * What update puts back into the devices attribute on a failed write, as
   * written: the value of getEndDate, so the reservation is left with a
   * date where its device list was.
   */
  datatype DevicesAttr = DeviceList(devices: seq<string>) | DateValue(day: Day)

  function UpdateRollbackAsWritten(e: Entry): (r: DevicesAttr)
  {
    DateValue(e.endDate)
  }

  /** The rollback of update as written never brings the old device list back. */
  lemma UpdateRollbackAsWrittenLosesDevices(e: Entry)
    ensures UpdateRollbackAsWritten(e) != DeviceList(e.devices)
    ensures UpdateRollbackAsWritten(e).DateValue? && UpdateRollbackAsWritten(e).day == e.endDate
  {
  }

  /** The outcome of openDB and parseDB on the reservations file. */
  datatype DbFile = OpenFailed | NoFile | Parsed(table: Table)

  // ---------------------------------------------------------------------
  // releaseDevices

  /** The devices of a list that are not named (Keep), and those that are (Taken), in order. */
  function Keep(ds: seq<string>, devices: seq<string>): seq<string>
    decreases |ds|
  {
    if |ds| == 0 then []
    else Keep(ds[..|ds| - 1], devices) + (if ds[|ds| - 1] in devices then [] else [ds[|ds| - 1]])
  }

  function Taken(ds: seq<string>, devices: seq<string>): seq<string>
    decreases |ds|
  {
    if |ds| == 0 then []
    else Taken(ds[..|ds| - 1], devices) + (if ds[|ds| - 1] in devices then [ds[|ds| - 1]] else [])
  }

  /** The two parts split the list: each device lands in exactly one of them. */
  lemma {:induction false} KeepTakenCount(ds: seq<string>, devices: seq<string>)
    ensures multiset(Keep(ds, devices)) + multiset(Taken(ds, devices)) == multiset(ds)
    decreases |ds|
  {
    if |ds| > 0 {
      var n := |ds| - 1;
      KeepTakenCount(ds[..n], devices);
      assert ds == ds[..n] + [ds[n]];
      assert multiset(ds) == multiset(ds[..n]) + multiset{ds[n]};
    }
  }

  /** The devices kept are those not named, the devices taken those named. */
  lemma {:induction false} KeepTakenMembers(ds: seq<string>, devices: seq<string>)
    ensures forall d :: d in Keep(ds, devices) <==> d in ds && d !in devices
    ensures forall d :: d in Taken(ds, devices) <==> d in ds && d in devices
    decreases |ds|
  {
    if |ds| > 0 {
      var n := |ds| - 1;
      KeepTakenMembers(ds[..n], devices);
      assert forall d :: d in ds <==> d in ds[..n] || d == ds[n];
    }
  }

  /** The reservation with the named devices taken out. */
  function Stripped(e: Entry, devices: seq<string>): Entry
  {
    e.(devices := Keep(e.devices, devices))
  }

  function StripAll(list: seq<Entry>, devices: seq<string>): (r: seq<Entry>)
    ensures |r| == |list|
    ensures forall i :: 0 <= i < |list| ==> r[i] == Stripped(list[i], devices)
    decreases |list|
  {
    if |list| == 0 then [] else StripAll(list[..|list| - 1], devices) + [Stripped(list[|list| - 1], devices)]
  }

  /** The released devices, reservation by reservation. */
  function TakenAll(list: seq<Entry>, devices: seq<string>): seq<string>
    decreases |list|
  {
    if |list| == 0 then [] else TakenAll(list[..|list| - 1], devices) + Taken(list[|list| - 1].devices, devices)
  }

  /** The reservations that still hold a device, in order. */
  function NonEmpty(list: seq<Entry>): seq<Entry>
    decreases |list|
  {
    if |list| == 0 then []
    else (if |list[0].devices| == 0 then [] else [list[0]]) + NonEmpty(list[1..])
  }

  lemma {:induction false} NonEmptyMeaning(list: seq<Entry>)
    ensures forall e :: e in NonEmpty(list) <==> e in list && |e.devices| > 0
    decreases |list|
  {
    if |list| > 0 {
      NonEmptyMeaning(list[1..]);
      assert forall e :: e in list <==> e == list[0] || e in list[1..];
    }
  }

  lemma {:induction false} TakenAllMeaning(list: seq<Entry>, devices: seq<string>)
    ensures forall d :: d in TakenAll(list, devices) <==> d in devices && exists e :: e in list && d in e.devices
    decreases |list|
  {
    if |list| > 0 {
      var n := |list| - 1;
      TakenAllMeaning(list[..n], devices);
      KeepTakenMembers(list[n].devices, devices);
      assert forall e :: e in list <==> e in list[..n] || e == list[n];
    }
  }

  /**
   * releaseDevices as intended: the reservations left hold none of the named
   * devices and at least one device each, each is a former reservation with
   * the named devices taken out, and the released devices are exactly the
   * named ones the user held.
   */
  lemma ReleaseDevicesMeaning(list: seq<Entry>, devices: seq<string>)
    ensures var r := NonEmpty(StripAll(list, devices));
      (forall e :: e in r ==> |e.devices| > 0 && forall d :: d in e.devices ==> d !in devices) &&
      (forall e2 :: e2 in r ==> exists e :: e in list && e2 == Stripped(e, devices))
    ensures forall d :: d in TakenAll(list, devices) <==> d in devices && exists e :: e in list && d in e.devices
  {
    var s := StripAll(list, devices);
    NonEmptyMeaning(s);
    TakenAllMeaning(list, devices);
    forall e2 | e2 in NonEmpty(s)
      ensures |e2.devices| > 0 && forall d :: d in e2.devices ==> d !in devices
      ensures exists e :: e in list && e2 == Stripped(e, devices)
    {
      var i :| 0 <= i < |s| && s[i] == e2;
      KeepTakenMembers(list[i].devices, devices);
      assert list[i] in list;
    }
  }

  /** The inner loop of releaseDevices for one reservation, as intended. */
  method StripEntry(e: Entry, devices: seq<string>) returns (kept: Entry, taken: seq<string>)
    ensures kept == Stripped(e, devices) && taken == Taken(e.devices, devices)
  {
    var ds := e.devices;
    var keep: seq<string> := [];
    taken := [];
    for i := 0 to |ds|
      invariant keep == Keep(ds[..i], devices) && taken == Taken(ds[..i], devices)
    {
      assert ds[..i + 1][..i] == ds[..i];
      if ds[i] in devices {
        taken := taken + [ds[i]];
      } else {
        keep := keep + [ds[i]];
      }
    }
    assert ds[..|ds|] == ds;
    kept := e.(devices := keep);
  }

  /** The loop that deletes, from the back, the reservations left without devices. */
  method DropEmpty(list: seq<Entry>) returns (r: seq<Entry>)
    ensures r == NonEmpty(list)
  {
    r := list;
    var x := |list|;
    assert list[x..] == [];
    while x > 0
      invariant 0 <= x <= |list|
      invariant r == list[..x] + NonEmpty(list[x..])
    {
      x := x - 1;
      assert list[x..][1..] == list[x + 1..];
      assert list[..x + 1] == list[..x] + [list[x]];
      if |r[x].devices| == 0 {
        r := r[..x] + r[x + 1..];
      }
    }
  }

  /** Both loops of releaseDevices over one user's list, as intended. */
  method StripUser(list: seq<Entry>, devices: seq<string>) returns (left: seq<Entry>, released: seq<string>)
    ensures left == NonEmpty(StripAll(list, devices)) && released == TakenAll(list, devices)
  {
    var stripped: seq<Entry> := [];
    released := [];
    for i := 0 to |list|
      invariant stripped == StripAll(list[..i], devices) && released == TakenAll(list[..i], devices)
    {
      assert list[..i + 1][..i] == list[..i];
      var kept, taken := StripEntry(list[i], devices);
      stripped := stripped + [kept];
      released := released + taken;
    }
    assert list[..|list|] == list;
    left := DropEmpty(stripped);
  }

  /** releaseDevices keeps the ids, so those below a bound stay below it. */
  lemma StripUserIdsBelow(t: Table, u: string, devices: seq<string>, n: int)
    requires IdsBelow(t, n) && u in t
    ensures IdsBelow(t[u := NonEmpty(StripAll(t[u], devices))], n)
  {
    var left := NonEmpty(StripAll(t[u], devices));
    ReleaseDevicesMeaning(t[u], devices);
    forall e2 | e2 in left
      ensures e2.id < n
    {
      var e :| e in t[u] && e2 == Stripped(e, devices);
      assert Holds(t, u, e);
    }
    IdsBelowUpdate(t, u, left, n);
  }

  /** The text "released: a, b": each device and ", ", the last separator cut off. */
  method ReleasedMessage(released: seq<string>) returns (s: string)
    requires |released| > 0
    ensures s == "released: " + JoinWith(released, ", ")
  {
    s := "released: ";
    for i := 0 to |released|
      invariant s == "released: " + Trailing(released[..i])
    {
      assert released[..i + 1][..i] == released[..i];
      s := s + released[i] + ", ";
    }
    assert released[..|released|] == released;
    TrailingJoin(released);
    s := s[..|s| - 2];
  }

  /** Each device followed by ", ". */
  function Trailing(xs: seq<string>): string
    decreases |xs|
  {
    if |xs| == 0 then "" else Trailing(xs[..|xs| - 1]) + xs[|xs| - 1] + ", "
  }

  lemma {:induction false} TrailingJoin(xs: seq<string>)
    requires |xs| > 0
    ensures Trailing(xs) == JoinWith(xs, ", ") + ", "
    decreases |xs|
  {
    var n := |xs| - 1;
    if n == 0 {
      assert Trailing(xs[..0]) == "";
    } else {
      TrailingJoin(xs[..n]);
      JoinWithSnoc(xs[..n], xs[n], ", ");
      assert xs[..n] + [xs[n]] == xs;
    }
  }

  /**
   * The inner loop of releaseDevices as written: it iterates over the device
   * list it removes from, and Python's list iterator moves on by index, so
   * the device after each removed one is never looked at.
   */
  function IterRemoveAsWritten(xs: seq<string>, devices: seq<string>, i: nat): (r: (seq<string>, seq<string>))
    decreases |xs| - i
  {
    if i >= |xs| then (xs, [])
    else if xs[i] in devices then
      assert |RemoveFirst(xs, xs[i])| < |xs| by {
        assert |multiset(RemoveFirst(xs, xs[i]))| == |multiset(xs)| - 1;
      }
      var r := IterRemoveAsWritten(RemoveFirst(xs, xs[i]), devices, i + 1);
      (r.0, [xs[i]] + r.1)
    else IterRemoveAsWritten(xs, devices, i + 1)
  }

  /** Releasing both devices of a two-device reservation, as written, releases only the first. */
  lemma IterRemoveAsWrittenSkips()
    ensures IterRemoveAsWritten(["computer1", "computer2"], ["computer1", "computer2"], 0) ==
      (["computer2"], ["computer1"])
    ensures Keep(["computer1", "computer2"], ["computer1", "computer2"]) == []
    ensures Taken(["computer1", "computer2"], ["computer1", "computer2"]) == ["computer1", "computer2"]
  {
    var xs, devices := ["computer1", "computer2"], ["computer1", "computer2"];
    assert RemoveFirst(xs, xs[0]) == ["computer2"];
    assert IterRemoveAsWritten(["computer2"], devices, 1) == (["computer2"], []);
    assert IterRemoveAsWritten(RemoveFirst(xs, xs[0]), devices, 1) == (["computer2"], []);
    assert xs[0] in devices by { assert devices[0] == xs[0]; }
    var r1 := IterRemoveAsWritten(RemoveFirst(xs, xs[0]), devices, 1);
    assert IterRemoveAsWritten(xs, devices, 0) == (r1.0, [xs[0]] + r1.1);
    assert r1 == (["computer2"], []);
    assert [xs[0]] + r1.1 == ["computer1"];
    assert xs[..1] == ["computer1"] && xs[..1][..0] == [];
  }

  /**
   * The loop of cleanExpired over one user's list, as written: release
   * removes the expired reservation from the list being iterated, so the
   * reservation after it is not looked at in this pass.
   */
  function CleanListAsWritten(xs: seq<Entry>, today: int, i: nat): seq<Entry>
    decreases |xs| - i
  {
    if i >= |xs| then xs
    else if xs[i].endDate < today then
      assert xs[i] in xs;
      var k := IndexOfId(xs, xs[i].id).value;
      CleanListAsWritten(xs[..k] + xs[k + 1..], today, i + 1)
    else CleanListAsWritten(xs, today, i + 1)
  }

  /** Two expired reservations in a row: as written the second survives the cleaning. */
  lemma CleanListAsWrittenSkips()
    ensures var a, b := Entry("alice", "alice@host", ["computer1"], 1, 1), Entry("alice", "alice@host", ["computer2"], 1, 2);
      CleanListAsWritten([a, b], 10, 0) == [b] && Unexpired([a, b], 10) == []
  {
    var a, b := Entry("alice", "alice@host", ["computer1"], 1, 1), Entry("alice", "alice@host", ["computer2"], 1, 2);
    assert IndexOfId([a, b], 1) == Some(0);
    assert [a, b][..0] + [a, b][1..] == [b];
    assert [a, b][..1] == [a] && [a, b][..1][..0] == [];
    assert Unexpired([a], 10) == [];
  }

  // ---------------------------------------------------------------------
  // Loops over one user's reservations

  /** The largest id of a list, starting from h0. */
  method HighestIn(list: seq<Entry>, h0: int) returns (h: int)
    ensures h >= h0
    ensures forall e :: e in list ==> e.id <= h
    ensures h == h0 || exists e :: e in list && e.id == h
  {
    h := h0;
    for i := 0 to |list|
      invariant h >= h0
      invariant forall j :: 0 <= j < i ==> list[j].id <= h
      invariant h == h0 || exists j :: 0 <= j < i && list[j].id == h
    {
      if list[i].id > h {
        h := list[i].id;
      }
    }
  }

  /** Whether a reservation of the list holds the device. */
  method HoldsDevice(list: seq<Entry>, device: string) returns (found: bool)
    ensures found <==> exists e :: e in list && device in e.devices
  {
    for i := 0 to |list|
      invariant forall j :: 0 <= j < i ==> device !in list[j].devices
    {
      if device in list[i].devices {
        return true;
      }
    }
    return false;
  }

  /** The first reservation of the list with the id, as the loops that break at it find it. */
  method FindId(list: seq<Entry>, id: int) returns (k: Option<nat>)
    ensures k == IndexOfId(list, id)
  {
    var i := 0;
    while i < |list| && list[i].id != id
      invariant 0 <= i <= |list|
      invariant forall j :: 0 <= j < i ==> list[j].id != id
    {
      i := i + 1;
    }
    k := if i < |list| then Some(i) else None;
  }

  /** The unexpired reservations of a list and the ids of the expired ones. */
  method SplitExpired(list: seq<Entry>, today: int) returns (kept: seq<Entry>, gone: set<int>)
    ensures kept == Unexpired(list, today)
    ensures gone == set e | e in list && e.endDate < today :: e.id
  {
    kept, gone := [], {};
    for i := 0 to |list|
      invariant kept == Unexpired(list[..i], today)
      invariant gone == set e | e in list[..i] && e.endDate < today :: e.id
    {
      assert list[..i + 1][..i] == list[..i];
      assert forall e :: e in list[..i + 1] <==> e in list[..i] || e == list[i];
      if list[i].endDate < today {
        gone := gone + {list[i].id};
      } else {
        kept := kept + [list[i]];
      }
    }
    assert list[..|list|] == list;
  }

  /** The loop of cleanExpired over the users, as intended: each list loses its expired reservations. */
  method SplitTable(t0: Table, today: int) returns (t: Table, removed: set<int>)
    ensures t == Cleaned(t0, today) && removed == ExpiredIds(t0, today)
  {
    t := t0;
    var keys := t0.Keys;
    ghost var done: set<string> := {};
    removed := {};
    while keys != {}
      invariant keys + done == t0.Keys && keys !! done
      invariant t.Keys == t0.Keys
      invariant forall u :: u in done ==> t[u] == Unexpired(t0[u], today)
      invariant forall u :: u in keys ==> t[u] == t0[u]
      invariant removed == set u, e | u in done && e in t0[u] && e.endDate < today :: e.id
      decreases keys
    {
      var u :| u in keys;
      var kept, gone := SplitExpired(t[u], today);
      t := t[u := kept];
      removed := removed + gone;
      keys := keys - {u};
      done := done + {u};
    }
  }

  /** The inner loop of __getMaxWeeks: the rights that cover the device lower the limit and mark it found. */
  method CapByRights(acc0: Option<int>, d: string, rs: seq<Right>, found0: seq<string>)
    returns (acc: Option<int>, found: seq<string>)
    ensures acc == CapRights(acc0, d, rs)
    ensures d in found <==> d in found0 || CoveredBy(d, rs)
    ensures forall x :: x != d ==> (x in found <==> x in found0)
  {
    acc, found := acc0, found0;
    for j := 0 to |rs|
      invariant acc == CapRights(acc0, d, rs[..j])
      invariant d in found <==> d in found0 || exists r :: r in rs[..j] && d in r.devices
      invariant forall x :: x != d ==> (x in found <==> x in found0)
    {
      assert rs[..j + 1][..j] == rs[..j];
      assert forall r :: r in rs[..j + 1] <==> r in rs[..j] || r == rs[j];
      assert CapRights(acc0, d, rs[..j + 1]) == Cap(acc, d, rs[j]);
      if d in rs[j].devices {
        found := found + [d];
        if acc.Some? {
          match ParseInt(rs[j].maxWeeks) {
            case None => acc := None;
            case Some(v) => if v < acc.value { acc := Some(v); }
          }
        }
      }
    }
    assert rs[..|rs|] == rs;
  }

  /** The reservation table of the daemon, with the state reserve, release and the others change. */
  class ReservationDB {
    var reservations: Table
    var nextID: int
    /** The notifications database: reservation id to the day count of the last early notice. */
    var notifications: map<int, int>
    var rights: map<string, seq<Right>>
    var maxNumWeeks: int

    /** ReservationDBManager.__init__: empty tables, next id 0. */
    constructor (maxNumWeeks: int)
      ensures reservations == map[] && nextID == 0 && notifications == map[] && rights == map[]
      ensures this.maxNumWeeks == maxNumWeeks
    {
      reservations := map[];
      nextID := 0;
      notifications := map[];
      rights := map[];
      this.maxNumWeeks := maxNumWeeks;
    }

    /** The state cleanExpired leaves, from the state of before. */
    ghost predicate CleanedFrom(t0: Table, n0: int, notes0: map<int, int>, file: Option<map<int, int>>,
                                today: int, writeOk: bool)
      reads this
    {
      reservations == Cleaned(t0, today) &&
      notifications == NotesAfter(notes0, file, ExpiredIds(t0, today)) &&
      CleanedNextID(t0, n0, today, writeOk, nextID)
    }

    /** __findHighestID: the largest id of any reservation, or 0. */
    method FindHighestID() returns (h: int)
      ensures IsHighestID(reservations, h)
    {
      h := 0;
      var keys := reservations.Keys;
      ghost var done: set<string> := {};
      while keys != {}
        invariant keys + done == reservations.Keys && keys !! done
        invariant h >= 0
        invariant forall u, e :: u in done && e in reservations[u] ==> e.id <= h
        invariant h == 0 || exists u, e :: u in done && e in reservations[u] && e.id == h
        decreases keys
      {
        var u :| u in keys;
        ghost var h0 := h;
        h := HighestIn(reservations[u], h);
        if h != h0 {
          ghost var e :| e in reservations[u] && e.id == h;
          assert u in done + {u};
        }
        keys := keys - {u};
        done := done + {u};
      }
      if h != 0 {
        ghost var u, e :| u in done && e in reservations[u] && e.id == h;
        assert Holds(reservations, u, e);
      }
    }

    /** __getOwner: a user holding the device, or None; which one, when several do, is the dictionary's order. */
    method GetOwner(device: string) returns (owner: Option<string>)
      ensures owner.None? <==> !InUse(reservations, device)
      ensures owner.Some? ==> owner.value in reservations
      ensures owner.Some? ==> exists e :: e in reservations[owner.value] && device in e.devices
    {
      var keys := reservations.Keys;
      while keys != {}
        invariant keys <= reservations.Keys
        invariant forall u, e :: Holds(reservations, u, e) && u !in keys ==> device !in e.devices
        decreases keys
      {
        var u :| u in keys;
        var found := HoldsDevice(reservations[u], device);
        if found {
          ghost var e :| e in reservations[u] && device in e.devices;
          assert Holds(reservations, u, e);
          return Some(u);
        }
        keys := keys - {u};
      }
      return None;
    }

    /** __isDeviceInUse. */
    method IsDeviceInUse(device: string) returns (inUse: bool)
      ensures inUse <==> InUse(reservations, device)
    {
      var owner := GetOwner(device);
      inUse := owner.Some?;
    }

    /** The first device of the list in use, as the loops that return at it find it. */
    method FirstDeviceInUse(devices: seq<string>) returns (r: Option<string>)
      ensures r == FirstInUse(reservations, devices)
    {
      for i := 0 to |devices|
        invariant FirstInUse(reservations, devices) == FirstInUse(reservations, devices[i..])
      {
        assert devices[i..][1..] == devices[i + 1..];
        var inUse := IsDeviceInUse(devices[i]);
        if inUse {
          return Some(devices[i]);
        }
      }
      return None;
    }

    /** __getReservedDevicesByID: the devices of a reservation with the id, or []. */
    method ReservedDevicesByID(id: int) returns (devices: seq<string>)
      ensures DevicesOfId(reservations, id, devices)
    {
      var keys := reservations.Keys;
      while keys != {}
        invariant keys <= reservations.Keys
        invariant forall u, e :: Holds(reservations, u, e) && u !in keys ==> e.id != id
        decreases keys
      {
        var u :| u in keys;
        var k := FindId(reservations[u], id);
        if k.Some? {
          assert Holds(reservations, u, reservations[u][k.value]);
          return reservations[u][k.value].devices;
        }
        keys := keys - {u};
      }
      return [];
    }

    /** __getMaxWeeks with maxweeks read as a number. */
    method GetMaxWeeks(username: string, devices: seq<string>) returns (w: Option<int>)
      ensures w == MaxWeeks(rights, username, devices, maxNumWeeks)
    {
      if username !in rights || |devices| == 0 {
        return Some(maxNumWeeks);
      }
      var rs := rights[username];
      var acc: Option<int> := Some(NO_LIMIT);
      var found: seq<string> := [];
      for i := 0 to |devices|
        invariant acc == CapDevices(devices[..i], rs)
        invariant forall x :: x in found <==> x in devices[..i] && CoveredBy(x, rs)
      {
        assert devices[..i + 1][..i] == devices[..i];
        assert forall x :: x in devices[..i + 1] <==> x in devices[..i] || x == devices[i];
        acc, found := CapByRights(acc, devices[i], rs, found);
      }
      assert devices[..|devices|] == devices;
      if acc.None? {
        return None;
      }
      if forall x :: x in devices ==> x in found {
        return acc;
      }
      return Some(maxNumWeeks);
    }

    /**
     * cleanExpired as intended: every reservation whose end day has passed
     * is released, its notification entry dropped twice (once by release,
     * once by cleanExpired itself, each time re-reading the notifications
     * file, notesFile at first, then what the previous removal wrote), and
     * the next id recounted once a release has been written out.
     */
    method CleanExpired(today: int, writeOk: bool, notesFile: Option<map<int, int>>)
      returns (written: Option<map<int, int>>)
      modifies this
      ensures CleanedFrom(old(reservations), old(nextID), old(notifications), notesFile, today, writeOk)
      ensures written == FileAfter(notesFile, ExpiredIds(old(reservations), today))
      ensures rights == old(rights) && maxNumWeeks == old(maxNumWeeks)
    {
      var kept, removed := SplitTable(reservations, today);
      reservations := kept;
      ghost var notes0 := notifications;
      written := notesFile;
      var ids := removed;
      while ids != {}
        invariant ids <= removed
        invariant notifications == NotesAfter(notes0, notesFile, removed - ids)
        invariant written == FileAfter(notesFile, removed - ids)
        invariant reservations == kept && nextID == old(nextID)
        invariant rights == old(rights) && maxNumWeeks == old(maxNumWeeks)
        decreases ids
      {
        var id :| id in ids;
        written := RemoveNotifications(id, written);
        NotesAfterSplit(notes0, notesFile, removed - ids, {id});
        written := RemoveNotifications(id, written);
        NotesAfterSplit(notes0, notesFile, removed - ids + {id}, {id});
        assert removed - ids + {id} + {id} == removed - (ids - {id});
        ids := ids - {id};
      }
      assert removed - ids == removed;
      if writeOk && removed != {} {
        var h := FindHighestID();
        nextID := h + 1;
      }
    }

    /**
     * release: the first reservation of the user with the id goes, with its
     * notification entry, the notifications database being re-read from its
     * file first (notesFile; None when it is missing or cannot be read, and
     * then the table is left alone). On a failed write the old table is put
     * back, but the backup names the same dictionary, so the removal stays.
     */
    method Release(username: string, id: int, writeOk: bool, notesFile: Option<map<int, int>>) returns (msg: string)
      modifies this
      ensures rights == old(rights) && maxNumWeeks == old(maxNumWeeks)
      ensures username !in old(reservations) ==> msg == "unknown user" && unchanged(this)
      ensures username in old(reservations) && IndexOfId(old(reservations)[username], id).None? ==>
        msg == "reservation id not found" && unchanged(this)
      ensures username in old(reservations) && IndexOfId(old(reservations)[username], id).Some? ==>
        var list := old(reservations)[username];
        var k := IndexOfId(list, id).value;
        reservations == old(reservations)[username := list[..k] + list[k + 1..]] &&
        (notesFile.None? ==> notifications == old(notifications)) &&
        (notesFile.Some? ==> notifications == notesFile.value - {id}) &&
        (writeOk ==> msg == "reservation released" && IsHighestID(reservations, nextID - 1)) &&
        (!writeOk ==> msg == "error while writing to database, release failed" && nextID == old(nextID))
      ensures old(IdsBelow(reservations, nextID)) ==> IdsBelow(reservations, nextID)
    {
      if username !in reservations {
        return "unknown user";
      }
      var list := reservations[username];
      var k := FindId(list, id);
      if k.None? {
        return "reservation id not found";
      }
      if IdsBelow(reservations, nextID) {
        forall e | e in list[..k.value] + list[k.value + 1..]
          ensures e.id < nextID
        {
          assert e in list;
          assert Holds(reservations, username, e);
        }
        IdsBelowUpdate(reservations, username, list[..k.value] + list[k.value + 1..], nextID);
      }
      reservations := reservations[username := list[..k.value] + list[k.value + 1..]];
      var written := RemoveNotifications(id, notesFile);
      if !writeOk {
        return "error while writing to database, release failed";
      }
      var h := FindHighestID();
      HighestIDBelow(reservations, h);
      nextID := h + 1;
      msg := "reservation released";
    }

    /**
     * releaseDevices as intended: the named devices leave every reservation
     * of the user, the reservations left without devices are deleted, and the
     * released devices are listed. The deletions happen even when nothing was
     * released, and a failed write keeps them all, the backup being the same
     * dictionary.
     */
    method ReleaseDevices(username: string, devices: seq<string>, writeOk: bool) returns (msg: string)
      modifies this
      ensures rights == old(rights) && maxNumWeeks == old(maxNumWeeks) && notifications == old(notifications)
      ensures old(IdsBelow(reservations, nextID)) ==> IdsBelow(reservations, nextID)
      ensures username !in old(reservations) ==> msg == "unknown user" && unchanged(this)
      ensures username in old(reservations) ==>
        var list := old(reservations)[username];
        var released := TakenAll(list, devices);
        reservations == old(reservations)[username := NonEmpty(StripAll(list, devices))] &&
        (released == [] ==> msg == "none of the devices were found in your reservations" && nextID == old(nextID)) &&
        (released != [] && !writeOk ==>
          msg == "error while writing to database, release failed" && nextID == old(nextID)) &&
        (released != [] && writeOk ==>
          msg == "released: " + JoinWith(released, ", ") && IsHighestID(reservations, nextID - 1))
    {
      if username !in reservations {
        return "unknown user";
      }
      var left, released := StripUser(reservations[username], devices);
      if IdsBelow(reservations, nextID) {
        StripUserIdsBelow(reservations, username, devices, nextID);
      }
      reservations := reservations[username := left];
      msg := FinishRelease(released, writeOk);
    }

    /** The end of releaseDevices: the reply, and the next id recounted once the change is written. */
    method FinishRelease(released: seq<string>, writeOk: bool) returns (msg: string)
      modifies this
      ensures reservations == old(reservations) && notifications == old(notifications)
      ensures rights == old(rights) && maxNumWeeks == old(maxNumWeeks)
      ensures old(IdsBelow(reservations, nextID)) ==> IdsBelow(reservations, nextID)
      ensures released == [] ==> msg == "none of the devices were found in your reservations" && nextID == old(nextID)
      ensures released != [] && !writeOk ==>
        msg == "error while writing to database, release failed" && nextID == old(nextID)
      ensures released != [] && writeOk ==>
        msg == "released: " + JoinWith(released, ", ") && IsHighestID(reservations, nextID - 1)
    {
      if |released| == 0 {
        return "none of the devices were found in your reservations";
      }
      if !writeOk {
        return "error while writing to database, release failed";
      }
      var h := FindHighestID();
      HighestIDBelow(reservations, h);
      nextID := h + 1;
      msg := ReleasedMessage(released);
    }

    /**
     * The state and reply renew leaves, from the cleaned table c and
     * notifications notes, with file what re-reading the notifications file
     * gives (None: missing or unreadable): a renewal day not in the future is
     * refused; the allowed weeks are those of the devices of a reservation
     * with the id (looked); the first reservation of the user with the id
     * gets the end day cut to them and loses its notification entry in the
     * re-read table, and a failed write puts the old end day back but not the
     * notification entry.
     */
    ghost predicate Renewed(c: Table, notes: map<int, int>, file: Option<map<int, int>>, username: string,
                            id: int, endDate: Day, today: Day, writeOk: bool, looked: seq<string>,
                            result: Outcome)
      reads this
    {
      var weeks := MaxWeeks(rights, username, looked, maxNumWeeks);
      var k := if username in c then IndexOfId(c[username], id) else None;
      if endDate <= today then
        result == Reply("renewal failed: supplied end date is in the past") && reservations == c && notifications == notes
      else if weeks.None? then
        result == Raised(ValueError) && reservations == c && notifications == notes
      else if MaxDate(today, weeks.value).None? then
        result == Raised(OverflowError) && reservations == c && notifications == notes
      else if k.None? then
        result == Reply(NotFoundMessage(id, username)) && reservations == c && notifications == notes
      else
        var newEnd := Clamp(endDate, MaxDate(today, weeks.value).value);
        var list := c[username];
        (file.None? ==> notifications == notes) &&
        (file.Some? ==> notifications == file.value - {id}) &&
        (writeOk ==>
          reservations == c[username := list[k.value := list[k.value].(endDate := newEnd)]] &&
          result == Reply(RenewedMessage(newEnd, newEnd != endDate, maxNumWeeks))) &&
        (!writeOk ==>
          reservations == c && result == Reply("error while writing to database, renew failed"))
    }

    /**
     * renew: clean, then move the end day of the user's reservation with the
     * id, within the weeks its devices allow.
     */
    method Renew(username: string, id: int, endDate: Day, today: Day, cleanWriteOk: bool, writeOk: bool,
                 notesFile: Option<map<int, int>>)
      returns (result: Outcome, ghost looked: seq<string>)
      modifies this
      ensures rights == old(rights) && maxNumWeeks == old(maxNumWeeks)
      ensures CleanedNextID(old(reservations), old(nextID), today, cleanWriteOk, nextID)
      ensures old(IdsBelow(reservations, nextID)) ==> IdsBelow(reservations, nextID)
      ensures today < endDate ==> DevicesOfId(Cleaned(old(reservations), today), id, looked)
      ensures Renewed(Cleaned(old(reservations), today),
        NotesAfter(old(notifications), notesFile, ExpiredIds(old(reservations), today)),
        FileAfter(notesFile, ExpiredIds(old(reservations), today)),
        username, id, endDate, today, writeOk, looked, result)
    {
      ghost var below := IdsBelow(reservations, nextID);
      ghost var t0, n0 := reservations, nextID;
      var written := CleanExpired(today, cleanWriteOk, notesFile);
      assert reservations == Cleaned(t0, today);
      assert CleanedNextID(t0, n0, today, cleanWriteOk, nextID);
      if below {
        CleanedIdsBelow(t0, n0, today, cleanWriteOk, nextID);
      }
      result, looked := RenewCleaned(username, id, endDate, today, writeOk, written);
    }

    /** renew after its call of cleanExpired. */
    method RenewCleaned(username: string, id: int, endDate: Day, today: Day, writeOk: bool,
                        notesFile: Option<map<int, int>>)
      returns (result: Outcome, ghost looked: seq<string>)
      modifies this
      ensures rights == old(rights) && maxNumWeeks == old(maxNumWeeks) && nextID == old(nextID)
      ensures old(IdsBelow(reservations, nextID)) ==> IdsBelow(reservations, nextID)
      ensures today < endDate ==> DevicesOfId(old(reservations), id, looked)
      ensures Renewed(old(reservations), old(notifications), notesFile, username, id, endDate, today, writeOk,
                      looked, result)
    {
      looked := [];
      if endDate <= today {
        return Reply("renewal failed: supplied end date is in the past"), looked;
      }
      var byId := ReservedDevicesByID(id);
      looked := byId;
      var weeks := GetMaxWeeks(username, byId);
      if weeks.None? {
        return Raised(ValueError), looked;
      }
      var maxDate := MaxDate(today, weeks.value);
      if maxDate.None? {
        return Raised(OverflowError), looked;
      }
      var newEnd := Clamp(endDate, maxDate.value);
      result := SetEndDate(username, id, newEnd, newEnd != endDate, writeOk, notesFile);
    }

    /**
     * The second half of renew: the first reservation of the user with the id
     * gets the new end day and loses its entry in the notifications database,
     * re-read from its file (notesFile; None: missing or unreadable, and then
     * the table is left alone).
     */
    method SetEndDate(username: string, id: int, newEnd: Day, trimmed: bool, writeOk: bool,
                      notesFile: Option<map<int, int>>)
      returns (result: Outcome)
      modifies this
      ensures rights == old(rights) && maxNumWeeks == old(maxNumWeeks) && nextID == old(nextID)
      ensures old(IdsBelow(reservations, nextID)) ==> IdsBelow(reservations, nextID)
      ensures var c := old(reservations);
        var k := if username in c then IndexOfId(c[username], id) else None;
        (k.None? ==>
          result == Reply(NotFoundMessage(id, username)) && reservations == c && notifications == old(notifications)) &&
        (k.Some? ==>
          var list := c[username];
          (notesFile.None? ==> notifications == old(notifications)) &&
          (notesFile.Some? ==> notifications == notesFile.value - {id}) &&
          (writeOk ==>
            reservations == c[username := list[k.value := list[k.value].(endDate := newEnd)]] &&
            result == Reply(RenewedMessage(newEnd, trimmed, maxNumWeeks))) &&
          (!writeOk ==>
            reservations == c && result == Reply("error while writing to database, renew failed")))
    {
      if username !in reservations {
        return Reply(NotFoundMessage(id, username));
      }
      var list := reservations[username];
      var k := FindId(list, id);
      if k.None? {
        return Reply(NotFoundMessage(id, username));
      }
      var written := RemoveNotifications(id, notesFile);
      if !writeOk {
        return Reply("error while writing to database, renew failed");
      }
      var e := list[k.value];
      if IdsBelow(reservations, nextID) {
        ReplaceIdsBelow(reservations, username, k.value, e.(endDate := newEnd), nextID);
      }
      reservations := reservations[username := list[k.value := e.(endDate := newEnd)]];
      result := Reply(RenewedMessage(newEnd, trimmed, maxNumWeeks));
    }

    /**
     * The state and reply update leaves, from the cleaned table c: adding a
     * device someone holds is refused; the first reservation of the user with
     * the id gets its devices added or removed and its e-mail address set,
     * and a failed write puts the old devices and address back.
     */
    ghost predicate UpdatedFrom(c: Table, username: string, id: int, op: string, devices: seq<string>,
                                email: Option<string>, writeOk: bool, msg: string)
      reads this
    {
      var k := if username in c then IndexOfId(c[username], id) else None;
      if op == "add" && FirstInUse(c, devices).Some? then
        msg == "reservation failed: " + FirstInUse(c, devices).value + " already reserved" && reservations == c
      else if k.None? then
        msg == NotFoundMessage(id, username) && reservations == c
      else if !writeOk then
        msg == "error while writing to database, update failed" && reservations == c
      else
        var list := c[username];
        msg == "reservation updated" &&
        reservations == c[username := list[k.value := Changed(list[k.value], op, devices, email)]]
    }

    /** update: clean, then add or remove devices of a reservation, or set its e-mail address. */
    method Update(username: string, id: int, op: string, devices: seq<string>, email: Option<string>,
                  today: Day, cleanWriteOk: bool, writeOk: bool, notesFile: Option<map<int, int>>)
      returns (msg: string)
      modifies this
      ensures rights == old(rights) && maxNumWeeks == old(maxNumWeeks)
      ensures notifications == NotesAfter(old(notifications), notesFile, ExpiredIds(old(reservations), today))
      ensures CleanedNextID(old(reservations), old(nextID), today, cleanWriteOk, nextID)
      ensures old(IdsBelow(reservations, nextID)) ==> IdsBelow(reservations, nextID)
      ensures UpdatedFrom(Cleaned(old(reservations), today), username, id, op, devices, email, writeOk, msg)
    {
      ghost var below := IdsBelow(reservations, nextID);
      ghost var t0, n0 := reservations, nextID;
      var written := CleanExpired(today, cleanWriteOk, notesFile);
      assert reservations == Cleaned(t0, today);
      assert CleanedNextID(t0, n0, today, cleanWriteOk, nextID);
      if below {
        CleanedIdsBelow(t0, n0, today, cleanWriteOk, nextID);
      }
      msg := UpdateCleaned(username, id, op, devices, email, writeOk);
    }

    /** update after its call of cleanExpired, restoring the device list itself on a failed write. */
    method UpdateCleaned(username: string, id: int, op: string, devices: seq<string>, email: Option<string>,
                         writeOk: bool) returns (msg: string)
      modifies this
      ensures rights == old(rights) && maxNumWeeks == old(maxNumWeeks)
      ensures notifications == old(notifications) && nextID == old(nextID)
      ensures old(IdsBelow(reservations, nextID)) ==> IdsBelow(reservations, nextID)
      ensures UpdatedFrom(old(reservations), username, id, op, devices, email, writeOk, msg)
    {
      if op == "add" {
        var inUse := FirstDeviceInUse(devices);
        if inUse.Some? {
          return "reservation failed: " + inUse.value + " already reserved";
        }
      }
      if username !in reservations {
        return NotFoundMessage(id, username);
      }
      var list := reservations[username];
      var k := FindId(list, id);
      if k.None? {
        return NotFoundMessage(id, username);
      }
      var e := list[k.value];
      var newDevices := e.devices;
      if op == "add" {
        newDevices := AppendDevices(e.devices, devices);
      } else if op == "remove" {
        newDevices := RemoveDevices(e.devices, devices);
      }
      var changed := e.(devices := newDevices, email := if email.Some? then email.value else e.email);
      assert changed == Changed(e, op, devices, email);
      if !writeOk {
        return "error while writing to database, update failed";
      }
      if IdsBelow(reservations, nextID) {
        ReplaceIdsBelow(reservations, username, k.value, changed, nextID);
      }
      reservations := reservations[username := list[k.value := changed]];
      msg := "reservation updated";
    }

    /**
     * startDB: an unreadable database stops the start; a missing one starts
     * the ids at 1, a parsed one after its highest id. Then the table is
     * cleaned and the rights database, which must be there, is loaded.
     */
    method StartDB(db: DbFile, rightsDB: Option<map<string, seq<Right>>>, today: Day, cleanWriteOk: bool,
                   notesFile: Option<map<int, int>>)
      returns (r: int)
      modifies this
      ensures db.OpenFailed? ==> r == -1 && unchanged(this)
      ensures !db.OpenFailed? ==>
        var t := if db.Parsed? then db.table else old(reservations);
        (rightsDB.None? ==> r == -1 && rights == old(rights)) &&
        (rightsDB.Some? ==> r == 0 && rights == rightsDB.value) &&
        maxNumWeeks == old(maxNumWeeks) &&
        reservations == Cleaned(t, today) &&
        notifications == NotesAfter(old(notifications), notesFile, ExpiredIds(t, today))
      ensures db.NoFile? ==> CleanedNextID(old(reservations), 1, today, cleanWriteOk, nextID)
      ensures db.Parsed? ==>
        exists h :: IsHighestID(db.table, h) && CleanedNextID(db.table, h + 1, today, cleanWriteOk, nextID)
      ensures db.Parsed? ==> IdsBelow(reservations, nextID)
      ensures db.NoFile? && old(IdsBelow(reservations, 1)) ==> IdsBelow(reservations, nextID)
    {
      if db.OpenFailed? {
        return -1;
      }
      if db.NoFile? {
        nextID := 1;
      } else {
        reservations := db.table;
        var h := FindHighestID();
        HighestIDBelow(reservations, h);
        nextID := h + 1;
      }
      ghost var t0, n0 := reservations, nextID;
      var written := CleanExpired(today, cleanWriteOk, notesFile);
      assert CleanedNextID(t0, n0, today, cleanWriteOk, nextID);
      if IdsBelow(t0, n0) {
        CleanedIdsBelow(t0, n0, today, cleanWriteOk, nextID);
      }
      if rightsDB.None? {
        return -1;
      }
      rights := rightsDB.value;
      r := 0;
    }

    /**
     * The state and reply reserve leaves, from the cleaned table c and next
     * id n0: an end day not in the future is refused, the end day is cut to
     * the weeks the devices allow, a device someone holds is refused, and
     * otherwise the reservation is stored under id n0. If the write fails the
     * reservation is taken out again, but the id stays used and the user
     * keeps a (perhaps empty) list.
     */
    ghost predicate ReservedFrom(c: Table, n0: int, username: string, email: string, endDate: Day,
                                 devices: seq<string>, today: Day, writeOk: bool, result: Outcome)
      reads this
    {
      var weeks := MaxWeeks(rights, username, devices, maxNumWeeks);
      if endDate <= today then
        result == Reply("reservation failed: supplied end date is in the past") && reservations == c && nextID == n0
      else if weeks.None? then
        result == Raised(ValueError) && reservations == c && nextID == n0
      else if MaxDate(today, weeks.value).None? then
        result == Raised(OverflowError) && reservations == c && nextID == n0
      else if FirstInUse(c, devices).Some? then
        result == Reply("reservation failed: " + FirstInUse(c, devices).value + " already reserved") &&
        reservations == c && nextID == n0
      else
        var newEnd := Clamp(endDate, MaxDate(today, weeks.value).value);
        nextID == n0 + 1 &&
        (writeOk ==>
          reservations == c[username := Held(c, username) + [Entry(username, email, devices, newEnd, n0)]] &&
          result == Reply(ReservedMessage(n0, newEnd, newEnd != endDate, maxNumWeeks))) &&
        (!writeOk ==>
          reservations == c[username := Held(c, username)] &&
          result == Reply("reservation failed: could not write database to disk"))
    }

    /** reserve: clean, then reserve on the cleaned table. */
    method Reserve(username: string, email: string, endDate: Day, devices: seq<string>,
                   today: Day, cleanWriteOk: bool, writeOk: bool, notesFile: Option<map<int, int>>)
      returns (result: Outcome)
      modifies this
      ensures rights == old(rights) && maxNumWeeks == old(maxNumWeeks)
      ensures notifications == NotesAfter(old(notifications), notesFile, ExpiredIds(old(reservations), today))
      ensures old(IdsBelow(reservations, nextID)) ==> IdsBelow(reservations, nextID)
      ensures exists n1 :: (CleanedNextID(old(reservations), old(nextID), today, cleanWriteOk, n1) &&
        ReservedFrom(Cleaned(old(reservations), today), n1, username, email, endDate, devices, today, writeOk, result))
    {
      ghost var below := IdsBelow(reservations, nextID);
      ghost var t0, n0 := reservations, nextID;
      var written := CleanExpired(today, cleanWriteOk, notesFile);
      assert reservations == Cleaned(t0, today);
      assert CleanedNextID(t0, n0, today, cleanWriteOk, nextID);
      if below {
        CleanedIdsBelow(t0, n0, today, cleanWriteOk, nextID);
      }
      ghost var n1 := nextID;
      result := ReserveCleaned(username, email, endDate, devices, today, writeOk);
      assert CleanedNextID(t0, n0, today, cleanWriteOk, n1);
    }

    /** reserve after its call of cleanExpired. */
    method ReserveCleaned(username: string, email: string, endDate: Day, devices: seq<string>,
                          today: Day, writeOk: bool) returns (result: Outcome)
      modifies this
      ensures rights == old(rights) && maxNumWeeks == old(maxNumWeeks) && notifications == old(notifications)
      ensures old(IdsBelow(reservations, nextID)) ==> IdsBelow(reservations, nextID)
      ensures ReservedFrom(old(reservations), old(nextID), username, email, endDate, devices, today, writeOk, result)
    {
      if endDate <= today {
        return Reply("reservation failed: supplied end date is in the past");
      }
      var weeks := GetMaxWeeks(username, devices);
      if weeks.None? {
        return Raised(ValueError);
      }
      var maxDate := MaxDate(today, weeks.value);
      if maxDate.None? {
        return Raised(OverflowError);
      }
      var newEnd := Clamp(endDate, maxDate.value);
      var inUse := FirstDeviceInUse(devices);
      if inUse.Some? {
        return Reply("reservation failed: " + inUse.value + " already reserved");
      }
      result := Store(username, email, devices, newEnd, newEnd != endDate, writeOk);
    }

    /**
     * The second half of reserve: the entry takes the next id (__getNextID)
     * and joins the user's list; if the write fails it is taken out again,
     * but the id stays used and the user keeps a (perhaps empty) list.
     */
    method Store(username: string, email: string, devices: seq<string>, endDate: Day,
                 trimmed: bool, writeOk: bool) returns (result: Outcome)
      modifies this
      ensures rights == old(rights) && maxNumWeeks == old(maxNumWeeks) && notifications == old(notifications)
      ensures nextID == old(nextID) + 1
      ensures old(IdsBelow(reservations, nextID)) ==> IdsBelow(reservations, nextID)
      ensures writeOk ==>
        reservations == old(reservations)[username := Held(old(reservations), username) +
          [Entry(username, email, devices, endDate, old(nextID))]] &&
        result == Reply(ReservedMessage(old(nextID), endDate, trimmed, maxNumWeeks))
      ensures !writeOk ==>
        reservations == old(reservations)[username := Held(old(reservations), username)] &&
        result == Reply("reservation failed: could not write database to disk")
    {
      var id := nextID;
      nextID := nextID + 1;
      var entry := Entry(username, email, devices, endDate, id);
      if old(IdsBelow(reservations, nextID)) {
        StoreIdsBelow(reservations, username, entry, id);
      }
      var held := Held(reservations, username);
      if !writeOk {
        reservations := reservations[username := held];
        return Reply("reservation failed: could not write database to disk");
      }
      reservations := reservations[username := held + [entry]];
      result := Reply(ReservedMessage(id, endDate, trimmed, maxNumWeeks));
    }

    /**
     * __removeNotifications: the notifications database is first re-read from
     * its file (file; None when the file is missing or cannot be read, and
     * then nothing happens), the reservation's entry leaves it, and the table
     * is written back (written).
     */
    method RemoveNotifications(id: int, file: Option<map<int, int>>) returns (written: Option<map<int, int>>)
      modifies this
      ensures file.None? ==> notifications == old(notifications) && written == file
      ensures file.Some? ==> notifications == file.value - {id} && written == Some(notifications)
      ensures notifications == NotesAfter(old(notifications), file, {id}) && written == FileAfter(file, {id})
      ensures reservations == old(reservations) && nextID == old(nextID)
      ensures rights == old(rights) && maxNumWeeks == old(maxNumWeeks)
    {
      if file.None? {
        return file;
      }
      assert WithoutIds(file.value, {id}) == file.value - {id};
      notifications := file.value - {id};
      written := Some(notifications);
    }
  }
}
