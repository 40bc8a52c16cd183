/** The counter store: `get_item_count` and `modify_item_count` over the
    `items` table. */
module Counters {
  import opened Store

  /** `get_item_count`: the stored count, or `None` for an unknown item. */
  function GetItemCount(items: map<string, Item>, itemId: string): (r: Option<nat>)
    ensures r.None? <==> itemId !in items
    ensures r.Some? ==> r.value == items[itemId].count
  {
    if itemId in items then Some(items[itemId].count) else None
  }

  /** What `modify_item_count` returns besides its update of `items`. */
  datatype ModifyResult = ModifyResult(success: bool, message: string, newCount: nat)

  /** The count that `modify_item_count` stores: a first touch starts at 1 for
      `add` and at 0 otherwise, ignoring `amount`; `add` adds `amount`; any
      other operation subtracts it and floors the result at zero. */
  function NextCount(current: Option<nat>, operation: string, amount: nat): nat
  {
    match current
    case None => if operation == "add" then 1 else 0
    case Some(c) =>
      if operation == "add" then c + amount
      else if c - amount < 0 then 0 else c - amount
  }

  /** `modify_item_count`: the new `items` table and the returned triple. */
  function ModifyItemCount(items: map<string, Item>, itemId: string, operation: string, amount: nat, now: int)
    : (r: (map<string, Item>, ModifyResult))
    ensures r.1.success && r.1.newCount == NextCount(GetItemCount(items, itemId), operation, amount)
    ensures r.1.message == "Item " + itemId + " " + operation + "ed successfully"
    ensures r.0.Keys == items.Keys + {itemId} && r.0[itemId].count == r.1.newCount
    ensures r.0[itemId].updatedAt == now && r.0[itemId].name == (if itemId in items then items[itemId].name else itemId)
    ensures forall k :: k in items && k != itemId ==> r.0[k] == items[k]
  {
    var n := NextCount(GetItemCount(items, itemId), operation, amount);
    var row := if itemId in items then items[itemId].(count := n, updatedAt := now)
               else Item(itemId, n, now, now);
    (items[itemId := row], ModifyResult(true, "Item " + itemId + " " + operation + "ed successfully", n))
  }

  /** Subtracting from an existing item stores max(0, current - amount), so
      a count never goes below zero, and changes no other item. */
  lemma SubtractFloorsAtZero(items: map<string, Item>, itemId: string, operation: string, amount: nat, now: int)
    requires itemId in items && operation != "add"
    ensures var (items', r) := ModifyItemCount(items, itemId, operation, amount, now);
      && r.newCount == (if items[itemId].count >= amount then items[itemId].count - amount else 0)
      && r.newCount <= items[itemId].count
      && items'[itemId] == items[itemId].(count := r.newCount, updatedAt := now)
      && items'.Keys == items.Keys
      && forall k :: k in items && k != itemId ==> items'[k] == items[k]
  {
  }

  /** Adding to an existing item stores current + amount and changes no other
      item; the row keeps its name and creation time. */
  lemma AddOnlyTouchesItem(items: map<string, Item>, itemId: string, amount: nat, now: int)
    requires itemId in items
    ensures var (items', r) := ModifyItemCount(items, itemId, "add", amount, now);
      && r.newCount == items[itemId].count + amount
      && items'.Keys == items.Keys
      && items'[itemId] == items[itemId].(count := r.newCount, updatedAt := now)
      && forall k :: k in items && k != itemId ==> items'[k] == items[k]
  {
  }

  /** The first touch of an item creates it, named after its id, with count 1
      for `add` and 0 for anything else, whatever the amount. */
  lemma FirstTouchCreates(items: map<string, Item>, itemId: string, operation: string, amount: nat, now: int)
    requires itemId !in items
    ensures var (items', r) := ModifyItemCount(items, itemId, operation, amount, now);
      && items'.Keys == items.Keys + {itemId}
      && items'[itemId] == Item(itemId, if operation == "add" then 1 else 0, now, now)
      && r.newCount == items'[itemId].count
      && forall k :: k in items ==> items'[k] == items[k]
  {
  }

  /** A modification is seen by the next read: `get_item_count` returns the
      count `modify_item_count` reported. */
  lemma ReadAfterModify(items: map<string, Item>, itemId: string, operation: string, amount: nat, now: int)
    ensures var (items', r) := ModifyItemCount(items, itemId, operation, amount, now);
      GetItemCount(items', itemId) == Some(r.newCount)
  {
  }
}
