// The expiry notifier of the reservation daemon (ReservationExpiryNotifier in
// bin/daemons/reservationdaemon.py): for each reservation close to its end it
// e-mails a notice once per notice window and records the window in the
// notifications database. Whether an e-mail goes out is an input.

module Notifier {
  import opened Common
  import opened Reservation

  /** The notice windows in days, shortest first. */
  const NOTIFICATION_DAYS: seq<int> := [1, 2, 7]

  /** The first window of the list that the end day falls in: it ends before today plus the window. */
  function FirstDue(days: seq<int>, endDate: int, today: int): (r: Option<int>)
    ensures r.Some? ==> r.value in days && endDate < today + r.value
    ensures r.None? <==> forall d :: d in days ==> today + d <= endDate
    decreases |days|
  {
    if |days| == 0 then None
    else if endDate < today + days[0] then Some(days[0])
    else
      var r := FirstDue(days[1..], endDate, today);
      assert forall d :: d in days <==> d == days[0] || d in days[1..];
      r
  }

  /** The window of the notice a reservation ending on endDate is due for today, if any. */
  function DueDay(endDate: int, today: int): Option<int>
  {
    FirstDue(NOTIFICATION_DAYS, endDate, today)
  }

  /** Windows listed shortest first: the first one that applies is the shortest that applies. */
  lemma {:induction false} FirstDueLeast(days: seq<int>, endDate: int, today: int)
    requires forall i, j :: 0 <= i < j < |days| ==> days[i] < days[j]
    ensures FirstDue(days, endDate, today).Some? ==>
      forall d :: d in days && endDate < today + d ==> FirstDue(days, endDate, today).value <= d
    decreases |days|
  {
    if |days| > 0 && today + days[0] <= endDate {
      FirstDueLeast(days[1..], endDate, today);
      assert forall d :: d in days <==> d == days[0] || d in days[1..];
    }
  }

  /** The notice names the shortest window the reservation is in. */
  lemma DueDayLeast(endDate: int, today: int)
    ensures DueDay(endDate, today).Some? ==>
      forall d :: d in NOTIFICATION_DAYS && endDate < today + d ==> DueDay(endDate, today).value <= d
    ensures DueDay(endDate, today).None? <==> today + 7 <= endDate
  {
    FirstDueLeast(NOTIFICATION_DAYS, endDate, today);
  }

  /** __alreadySent: a notice for the reservation was recorded for this window or a shorter one. */
  predicate AlreadySent(notifications: map<int, int>, id: int, day: int)
  {
    id in notifications && notifications[id] <= day
  }

  /** Once a notice is recorded for a window, it counts as sent for every longer window and no shorter one. */
  lemma AlreadySentRecorded(notifications: map<int, int>, id: int, day: int, d: int)
    ensures AlreadySent(notifications[id := day], id, d) <==> day <= d
    ensures forall other :: other != id ==>
      (AlreadySent(notifications[id := day], other, d) <==> AlreadySent(notifications, other, d))
  {
  }

  /** Every recorded window stayed or became shorter. */
  ghost predicate Lowered(before: map<int, int>, after: map<int, int>)
  {
    forall id :: id in before ==> id in after && after[id] <= before[id]
  }

  /** What is sent stays sent when windows only become shorter. */
  lemma LoweredKeepsSent(before: map<int, int>, after: map<int, int>, id: int, day: int)
    requires Lowered(before, after) && AlreadySent(before, id, day)
    ensures AlreadySent(after, id, day)
  {
  }

  /** Each entry that changed came from a notice that went out for a reservation of the list. */
  ghost predicate FromNotices(before: map<int, int>, after: map<int, int>, list: seq<Entry>,
                              today: int, delivered: int -> bool)
  {
    forall id :: id in after ==>
      (id in before && after[id] == before[id]) ||
      exists e :: e in list && e.id == id && delivered(id) && DueDay(e.endDate, today) == Some(after[id])
  }

  /** ... and of a table. */
  ghost predicate FromTableNotices(before: map<int, int>, after: map<int, int>, t: Table,
                                   today: int, delivered: int -> bool)
  {
    forall id :: id in after ==>
      (id in before && after[id] == before[id]) ||
      exists u, e :: Holds(t, u, e) && e.id == id && delivered(id) && DueDay(e.endDate, today) == Some(after[id])
  }

  /** The notifier's copies of the two databases, which it parses afresh before each round. */
  class ExpiryNotifier {
    var reservations: Table
    var notifications: map<int, int>

    constructor ()
      ensures reservations == map[] && notifications == map[]
    {
      reservations := map[];
      notifications := map[];
    }

    /**
     * The loop over the windows for one reservation: at the first window
     * it falls in, a notice not yet sent for it is e-mailed and, if that
     * succeeds, recorded; then the loop stops.
     */
    method NotifyEntry(e: Entry, today: int, delivered: int -> bool)
      modifies this
      ensures reservations == old(reservations)
      ensures Lowered(old(notifications), notifications)
      ensures DueDay(e.endDate, today).Some? && delivered(e.id) ==>
        AlreadySent(notifications, e.id, DueDay(e.endDate, today).value)
      ensures forall id :: id in notifications ==>
        (id in old(notifications) && notifications[id] == old(notifications)[id]) ||
        (id == e.id && delivered(id) && DueDay(e.endDate, today) == Some(notifications[id]))
    {
      var i := 0;
      while i < |NOTIFICATION_DAYS|
        invariant 0 <= i <= |NOTIFICATION_DAYS|
        invariant FirstDue(NOTIFICATION_DAYS[i..], e.endDate, today) == DueDay(e.endDate, today)
        invariant notifications == old(notifications) && reservations == old(reservations)
      {
        var day := NOTIFICATION_DAYS[i];
        if e.endDate < today + day {
          if !AlreadySent(notifications, e.id, day) && delivered(e.id) {
            notifications := notifications[e.id := day];
          }
          return;
        }
        assert NOTIFICATION_DAYS[i..][1..] == NOTIFICATION_DAYS[i + 1..];
        i := i + 1;
      }
    }

    /** The loop over one user's reservations. */
    method NotifyList(list: seq<Entry>, today: int, delivered: int -> bool)
      modifies this
      ensures reservations == old(reservations)
      ensures Lowered(old(notifications), notifications)
      ensures forall e :: e in list && DueDay(e.endDate, today).Some? && delivered(e.id) ==>
        AlreadySent(notifications, e.id, DueDay(e.endDate, today).value)
      ensures FromNotices(old(notifications), notifications, list, today, delivered)
    {
      for i := 0 to |list|
        invariant reservations == old(reservations)
        invariant Lowered(old(notifications), notifications)
        invariant forall e :: e in list[..i] && DueDay(e.endDate, today).Some? && delivered(e.id) ==>
          AlreadySent(notifications, e.id, DueDay(e.endDate, today).value)
        invariant FromNotices(old(notifications), notifications, list[..i], today, delivered)
      {
        ghost var before := notifications;
        NotifyEntry(list[i], today, delivered);
        assert forall e :: e in list[..i + 1] <==> e in list[..i] || e == list[i];
        forall id | id in notifications
          ensures (id in old(notifications) && notifications[id] == old(notifications)[id]) ||
            exists e :: e in list[..i + 1] && e.id == id && delivered(id) && DueDay(e.endDate, today) == Some(notifications[id])
        {
          if !(id in before && notifications[id] == before[id]) {
            assert list[i] in list[..i + 1];
          } else if !(id in old(notifications) && before[id] == old(notifications)[id]) {
            ghost var e :| e in list[..i] && e.id == id && delivered(id) && DueDay(e.endDate, today) == Some(before[id]);
            assert e in list[..i + 1];
          }
        }
      }
      assert list[..|list|] == list;
    }

    /**
     * __sendEarlyExpiryNotifications: afterwards every reservation in a
     * notice window whose e-mail goes out has its notice recorded, recorded
     * windows only shrink, and every change comes from such a notice.
     */
    method SendEarlyExpiryNotifications(today: int, delivered: int -> bool)
      modifies this
      ensures reservations == old(reservations)
      ensures forall u, e :: Holds(reservations, u, e) && DueDay(e.endDate, today).Some? && delivered(e.id) ==>
        AlreadySent(notifications, e.id, DueDay(e.endDate, today).value)
      ensures Lowered(old(notifications), notifications)
      ensures FromTableNotices(old(notifications), notifications, reservations, today, delivered)
    {
      var keys := reservations.Keys;
      ghost var done: set<string> := {};
      while keys != {}
        invariant keys + done == reservations.Keys && keys !! done
        invariant reservations == old(reservations)
        invariant Lowered(old(notifications), notifications)
        invariant forall u, e :: u in done && e in reservations[u] && DueDay(e.endDate, today).Some? && delivered(e.id) ==>
          AlreadySent(notifications, e.id, DueDay(e.endDate, today).value)
        invariant FromTableNotices(old(notifications), notifications, reservations, today, delivered)
        decreases keys
      {
        var u :| u in keys;
        ghost var before := notifications;
        NotifyList(reservations[u], today, delivered);
        forall id | id in notifications
          ensures (id in old(notifications) && notifications[id] == old(notifications)[id]) ||
            exists v, e :: Holds(reservations, v, e) && e.id == id && delivered(id) && DueDay(e.endDate, today) == Some(notifications[id])
        {
          if !(id in before && notifications[id] == before[id]) {
            ghost var e :| e in reservations[u] && e.id == id && delivered(id) && DueDay(e.endDate, today) == Some(notifications[id]);
            assert Holds(reservations, u, e);
          }
        }
        keys := keys - {u};
        done := done + {u};
      }
    }
  }
}
