/**
 * The gameroom UI's store of notifications: the state holds the list, the getters sort it
 * newest first and count the unread ones, and the mutations replace the list, append to
 * it and replace one notification by id.
 */
module Notifications {

  /** A notification as the gameroom daemon reports it. */
  datatype Notification = Notification(
    id: string,
    notificationType: string,
    requester: string,
    nodeId: string,
    requesterOrg: string,
    timestamp: int,
    read: bool)

  /** Newest first: no notification precedes a newer one. */
  predicate NewestFirst(s: seq<Notification>) {
    forall a, b :: 0 <= a < b < |s| ==> s[a].timestamp >= s[b].timestamp
  }

  /** `filter((notification) => !notification.read)`: the unread notifications, in order. */
  function Unread(s: seq<Notification>): (u: seq<Notification>)
    ensures |u| <= |s|
    ensures forall n :: n in u <==> n in s && !n.read
  {
    if |s| == 0 then []
    else if s[0].read then Unread(s[1..])
    else [s[0]] + Unread(s[1..])
  }

  /** The unread notifications of a concatenation are those of each part. */
  lemma {:induction false} UnreadAppend(a: seq<Notification>, b: seq<Notification>)
    ensures Unread(a + b) == Unread(a) + Unread(b)
    decreases |a|
  {
    if |a| == 0 {
      assert a + b == b;
    } else {
      assert (a + b)[1..] == a[1..] + b;
      UnreadAppend(a[1..], b);
    }
  }

  /** The positions of the unread notifications. */
  function UnreadPositions(s: seq<Notification>): set<int> {
    set i | 0 <= i < |s| && !s[i].read
  }

  /** The unread count is the number of positions holding an unread notification. */
  lemma {:induction false} UnreadCountIsPositions(s: seq<Notification>)
    ensures |Unread(s)| == |UnreadPositions(s)|
    decreases |s|
  {
    if |s| > 0 {
      var t, x := s[..|s| - 1], s[|s| - 1];
      assert s == t + [x];
      UnreadAppend(t, [x]);
      assert [x][1..] == [];
      UnreadCountIsPositions(t);
      UnreadPositionsSnoc(t, x);
    }
  }

  /** Appending one notification adds its position exactly when it is unread. */
  lemma UnreadPositionsSnoc(t: seq<Notification>, x: Notification)
    ensures |UnreadPositions(t + [x])| == |UnreadPositions(t)| + (if x.read then 0 else 1)
  {
    var s := t + [x];
    var p, q := UnreadPositions(s), UnreadPositions(t);
    var extra: set<int> := if x.read then {} else {|t|};
    forall i | i in p ensures i in q + extra {
      if i < |t| {
        assert s[i] == t[i];
      }
    }
    forall i | i in q + extra ensures i in p {
      if i < |t| {
        assert s[i] == t[i];
      }
    }
    assert p == q + extra;
    assert q * extra == {};
  }

  /** The unread count is zero exactly when every notification has been read. */
  lemma UnreadNoneIffAllRead(s: seq<Notification>)
    ensures |Unread(s)| == 0 <==> forall i :: 0 <= i < |s| ==> s[i].read
  {
    if |Unread(s)| > 0 {
      assert Unread(s)[0] in Unread(s);
    }
  }

  /** The unread count equals the length exactly when nothing has been read. */
  lemma {:induction false} UnreadAllIffNoneRead(s: seq<Notification>)
    ensures |Unread(s)| == |s| <==> forall i :: 0 <= i < |s| ==> !s[i].read
    decreases |s|
  {
    if |s| > 0 {
      UnreadAllIffNoneRead(s[1..]);
      assert forall i :: 1 <= i < |s| ==> s[i] == s[1..][i - 1];
    }
  }

  /** Taking one notification out lowers the unread count by one exactly when it was unread. */
  lemma UnreadCountRemove(b: seq<Notification>, k: nat)
    requires k < |b|
    ensures |Unread(b)| == |Unread(b[..k] + b[k + 1..])| + (if b[k].read then 0 else 1)
  {
    assert b == b[..k] + [b[k]] + b[k + 1..];
    UnreadAppend(b[..k] + [b[k]], b[k + 1..]);
    UnreadAppend(b[..k], [b[k]]);
    UnreadAppend(b[..k], b[k + 1..]);
    assert [b[k]][1..] == [];
  }

  /** Removing an element at position `k` removes one occurrence from the multiset. */
  lemma MultisetRemove(b: seq<Notification>, k: nat)
    requires k < |b|
    ensures multiset(b[..k] + b[k + 1..]) == multiset(b) - multiset{b[k]}
  {
    assert b == b[..k] + [b[k]] + b[k + 1..];
    assert multiset(b) == multiset(b[..k]) + multiset([b[k]]) + multiset(b[k + 1..]);
  }

  /** Matching the head of `a` with position `k` of `b` leaves two rests with equal multisets. */
  lemma MultisetMatchHead(a: seq<Notification>, b: seq<Notification>, k: nat)
    requires multiset(a) == multiset(b)
    requires 0 < |a| && k < |b| && b[k] == a[0]
    ensures multiset(a[1..]) == multiset(b[..k] + b[k + 1..])
  {
    assert a == [a[0]] + a[1..];
    assert multiset(a) == multiset{a[0]} + multiset(a[1..]);
    MultisetRemove(b, k);
  }

  /** Reordering the notifications does not change how many are unread. */
  lemma {:induction false} UnreadCountPermutation(a: seq<Notification>, b: seq<Notification>)
    requires multiset(a) == multiset(b)
    ensures |Unread(a)| == |Unread(b)|
    decreases |a|
  {
    if |a| > 0 {
      assert a[0] in b by {
        assert a[0] in multiset(a);
      }
      var k :| 0 <= k < |b| && b[k] == a[0];
      MultisetMatchHead(a, b, k);
      UnreadCountPermutation(a[1..], b[..k] + b[k + 1..]);
      UnreadCountRemove(b, k);
    }
  }

  /** Replacing one notification changes the unread count by the difference it makes. */
  lemma UnreadCountUpdate(s: seq<Notification>, i: nat, n: Notification)
    requires i < |s|
    ensures |Unread(s[i := n])| == |Unread(s)| - (if s[i].read then 0 else 1) + (if n.read then 0 else 1)
  {
    assert s == s[..i] + [s[i]] + s[i + 1..];
    assert s[i := n] == s[..i] + [n] + s[i + 1..];
    UnreadAppend(s[..i] + [s[i]], s[i + 1..]);
    UnreadAppend(s[..i], [s[i]]);
    UnreadAppend(s[..i] + [n], s[i + 1..]);
    UnreadAppend(s[..i], [n]);
    assert [n][1..] == [] && [s[i]][1..] == [];
  }

  /** `findIndex((notif) => notif.id === id)`: the first position with that id, or -1. */
  function FindIndexById(s: seq<Notification>, id: string): (i: int)
    ensures -1 <= i < |s|
    ensures i == -1 <==> forall k :: 0 <= k < |s| ==> s[k].id != id
    ensures i >= 0 ==> s[i].id == id && forall k :: 0 <= k < i ==> s[k].id != id
  {
    if |s| == 0 then -1
    else if s[0].id == id then 0
    else
      var i := FindIndexById(s[1..], id);
      assert forall k :: 1 <= k < |s| ==> s[k] == s[1..][k - 1];
      if i == -1 then -1 else i + 1
  }

  /**
   * The comparator `b.timestamp - a.timestamp`: insertion sort by adjacent swaps, newest
   * first, keeping exactly the same notifications.
   */
  method SortNewestFirst(s: seq<Notification>) returns (r: seq<Notification>)
    ensures NewestFirst(r)
    ensures multiset(r) == multiset(s)
  {
    r := s;
    for i := 0 to |r|
      invariant |r| == |s|
      invariant multiset(r) == multiset(s)
      invariant forall a, b :: 0 <= a < b < i ==> r[a].timestamp >= r[b].timestamp
    {
      var j := i;
      while j > 0 && r[j - 1].timestamp < r[j].timestamp
        invariant 0 <= j <= i
        invariant |r| == |s|
        invariant multiset(r) == multiset(s)
        invariant forall a, b :: 0 <= a < b <= i && a != j && b != j ==> r[a].timestamp >= r[b].timestamp
        invariant forall b :: j < b <= i ==> r[j].timestamp > r[b].timestamp
      {
        SwapStep(r, i, j);
        r := Swap(r, j - 1);
        j := j - 1;
      }
    }
  }

  /**
   * One step of the inner loop: when the notification at `j` is newer than the one before
   * it, swapping them moves the out-of-place one a position further left and keeps the
   * rest of the prefix up to `i` in order.
   */
  lemma SwapStep(r: seq<Notification>, i: nat, j: nat)
    requires 0 < j <= i < |r|
    requires r[j - 1].timestamp < r[j].timestamp
    requires forall a, b :: 0 <= a < b <= i && a != j && b != j ==> r[a].timestamp >= r[b].timestamp
    requires forall b :: j < b <= i ==> r[j].timestamp > r[b].timestamp
    ensures var t := Swap(r, j - 1);
            && (forall a, b :: 0 <= a < b <= i && a != j - 1 && b != j - 1 ==> t[a].timestamp >= t[b].timestamp)
            && (forall b :: j - 1 < b <= i ==> t[j - 1].timestamp > t[b].timestamp)
  {
    var t := Swap(r, j - 1);
    forall a, b | 0 <= a < b <= i && a != j - 1 && b != j - 1
      ensures t[a].timestamp >= t[b].timestamp
    {
      if a == j {
        assert t[a] == r[j - 1] && t[b] == r[b];
      } else if b == j {
        assert t[b] == r[j - 1] && t[a] == r[a];
      } else {
        assert t[a] == r[a] && t[b] == r[b];
      }
    }
  }

  /** The sequence with the elements at `k` and `k + 1` exchanged. */
  function Swap(s: seq<Notification>, k: nat): (t: seq<Notification>)
    requires k + 1 < |s|
    ensures |t| == |s| && t[k] == s[k + 1] && t[k + 1] == s[k]
    ensures forall m :: 0 <= m < |s| && m != k && m != k + 1 ==> t[m] == s[m]
    ensures multiset(t) == multiset(s)
  {
    s[k := s[k + 1]][k + 1 := s[k]]
  }

  /** The store's state: the list of notifications the UI shows. */
  class NotificationState {
    var notifications: seq<Notification>

    constructor()
      ensures notifications == []
    {
      notifications := [];
    }

    /** `getNotifications`: sorts the list in place, newest first, and returns it. */
    method GetNotifications() returns (r: seq<Notification>)
      modifies this
      ensures r == notifications
      ensures NewestFirst(notifications)
      ensures multiset(notifications) == multiset(old(notifications))
      ensures |Unread(notifications)| == |Unread(old(notifications))|
    {
      var sorted := SortNewestFirst(notifications);
      UnreadCountPermutation(notifications, sorted);
      notifications := sorted;
      r := notifications;
    }

    /** `getNewNotificationCount`: how many notifications are unread. */
    function GetNewNotificationCount(): (count: nat)
      reads this
      ensures count <= |notifications|
      ensures count == |set i | 0 <= i < |notifications| && !notifications[i].read|
      ensures count == 0 <==> forall i :: 0 <= i < |notifications| ==> notifications[i].read
    {
      UnreadNoneIffAllRead(notifications);
      UnreadCountIsPositions(notifications);
      |Unread(notifications)|
    }

    /** `setNotifications`: the list is replaced. */
    method SetNotifications(ns: seq<Notification>)
      modifies this
      ensures notifications == ns
    {
      notifications := ns;
    }

    /** `addNotification`: the notification is appended; the count grows by one when it is unread. */
    method AddNotification(n: Notification)
      modifies this
      ensures notifications == old(notifications) + [n]
      ensures GetNewNotificationCount() == old(GetNewNotificationCount()) + (if n.read then 0 else 1)
    {
      UnreadAppend(notifications, [n]);
      assert [n][1..] == [];
      notifications := notifications + [n];
    }

    /**
     * `updateNotification`: the first notification with the update's id is replaced by the
     * update in place; without one, nothing changes.
     */
    method UpdateNotification(update: Notification)
      modifies this
      ensures var i := FindIndexById(old(notifications), update.id);
              && (i == -1 ==> notifications == old(notifications))
              && (i != -1 ==> notifications == old(notifications)[i := update])
      ensures |notifications| == |old(notifications)|
    {
      var index := FindIndexById(notifications, update.id);
      if index != -1 {
        notifications := notifications[..index] + [update] + notifications[index + 1..];
        assert notifications == old(notifications)[index := update];
      }
    }
  }
}
