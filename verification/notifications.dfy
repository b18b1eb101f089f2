/** The low-stock notification policy of the application shell: at most one unread
    low-stock notification per product, newest first, and the two "mark as read" actions. */
module Notifications {
  import opened Types
  import opened Lists
  import opened Numbers

  /** `n` is an unread low-stock notification about product `productId`. */
  predicate IsUnreadFor(n: Notification, productId: string) {
    n.productId == productId && n.kind == LowStockAlert && !n.read
  }

  predicate HasUnreadFor(ns: seq<Notification>, productId: string) {
    exists i :: 0 <= i < |ns| && IsUnreadFor(ns[i], productId)
  }

  /** How many unread low-stock notifications concern `productId`. */
  function UnreadCount(ns: seq<Notification>, productId: string): nat {
    Count(ns, n => IsUnreadFor(n, productId))
  }

  lemma UnreadCountPositive(ns: seq<Notification>, productId: string)
    ensures UnreadCount(ns, productId) > 0 <==> HasUnreadFor(ns, productId)
  {
    var f := n => IsUnreadFor(n, productId);
    if HasUnreadFor(ns, productId) {
      var i :| 0 <= i < |ns| && IsUnreadFor(ns[i], productId);
      assert ns[i] in Filter(ns, f);
    } else {
      FilterKeepsNone(ns, f);
    }
  }

  /** Prepends a new unread low-stock notification for `productId`, unless one is already
      waiting unread, in which case nothing changes. */
  function AddNotification(ns: seq<Notification>, productId: string, message: string, now: int): (r: seq<Notification>)
    ensures HasUnreadFor(ns, productId) ==> r == ns
    ensures !HasUnreadFor(ns, productId) ==>
      && |r| == |ns| + 1
      && r[1..] == ns
      && r[0].productId == productId && r[0].kind == LowStockAlert && !r[0].read
      && r[0].message == message && r[0].timestamp == now
    ensures HasUnreadFor(r, productId)
  {
    if HasUnreadFor(ns, productId) then ns
    else
      var n := Notification("notif-" + IntToString(now), LowStockAlert, message, productId, now, false);
      assert IsUnreadFor(([n] + ns)[0], productId);
      [n] + ns
  }

  /** Raising a notification never creates a second unread one for the same product:
      afterwards there is exactly one if there was none, and the count is unchanged
      otherwise. Other products' counts are untouched. */
  lemma AddNotificationCount(ns: seq<Notification>, productId: string, message: string, now: int, other: string)
    requires other != productId
    ensures UnreadCount(AddNotification(ns, productId, message, now), productId)
      == if UnreadCount(ns, productId) == 0 then 1 else UnreadCount(ns, productId)
    ensures UnreadCount(AddNotification(ns, productId, message, now), other) == UnreadCount(ns, other)
  {
    UnreadCountPositive(ns, productId);
    var r := AddNotification(ns, productId, message, now);
    if !HasUnreadFor(ns, productId) {
      assert r == [r[0]] + ns;
      FilterConcat([r[0]], ns, n => IsUnreadFor(n, productId));
      FilterConcat([r[0]], ns, n => IsUnreadFor(n, other));
    }
  }

  /** Marks the notification with identifier `id` as read; every other one is unchanged. */
  function MarkAsRead(ns: seq<Notification>, id: string): (r: seq<Notification>)
    ensures |r| == |ns|
    ensures forall i :: 0 <= i < |ns| && ns[i].id == id ==> r[i] == ns[i].(read := true)
    ensures forall i :: 0 <= i < |ns| && ns[i].id != id ==> r[i] == ns[i]
  {
    seq(|ns|, i requires 0 <= i < |ns| => if ns[i].id == id then ns[i].(read := true) else ns[i])
  }

  /** Marks every notification as read, changing nothing else about them. */
  function MarkAllAsRead(ns: seq<Notification>): (r: seq<Notification>)
    ensures |r| == |ns|
    ensures forall i :: 0 <= i < |ns| ==> r[i] == ns[i].(read := true)
  {
    seq(|ns|, i requires 0 <= i < |ns| => if ns[i].read then ns[i] else ns[i].(read := true))
  }

  /** Marking as read is idempotent, for one notification and for all of them. */
  lemma MarkingIsIdempotent(ns: seq<Notification>, id: string)
    ensures MarkAsRead(MarkAsRead(ns, id), id) == MarkAsRead(ns, id)
    ensures MarkAllAsRead(MarkAllAsRead(ns)) == MarkAllAsRead(ns)
  {
  }

  /** After "mark all as read" no product has an unread notification, so the next
      low-stock crossing of any product raises a fresh one. */
  lemma MarkAllLeavesNothingUnread(ns: seq<Notification>, productId: string)
    ensures !HasUnreadFor(MarkAllAsRead(ns), productId)
    ensures UnreadCount(MarkAllAsRead(ns), productId) == 0
  {
    UnreadCountPositive(MarkAllAsRead(ns), productId);
  }

  /** Marking one notification as read never increases any product's unread count. */
  lemma MarkAsReadNeverAddsUnread(ns: seq<Notification>, id: string, productId: string)
    ensures UnreadCount(MarkAsRead(ns, id), productId) <= UnreadCount(ns, productId)
  {
    CountMonotonic(ns, MarkAsRead(ns, id), n => IsUnreadFor(n, productId), n => IsUnreadFor(n, productId));
  }
}
