/** The relative stock adjustment dialog
    (`src/components/catalog/UpdateStockDialog.tsx`): a signed change is
    composed with the −/+ buttons or typed in, previewed as
    `stock + change`, and submitted only when that is not negative. */
module UpdateStock {
  import opened Opt
  import opened Text
  import opened Types
  import Lifecycle

  /** The dialog's state: whether it is open and the pending change. */
  datatype Dialog = Dialog(open: bool, change: int)

  /** The `onUpdateStock(id, newStock)` call a submit makes. */
  datatype Call = Call(id: string, newStock: int)

  /** `previewStock`: the stock a submit would send, when it sends one. */
  function Preview(p: Product, d: Dialog): (r: int)
    ensures r >= 0 ==> Submit(p, d).1 == Some(Call(p.id, r))
    ensures r < 0 ==> Submit(p, d).1.None?
  {
    p.stock + d.change
  }

  /** `disabled={previewStock < 0}`: disabled exactly when `handleSubmit`
      would refuse, that is when the change would take away more than the
      product has. */
  predicate SubmitDisabled(p: Product, d: Dialog)
    ensures SubmitDisabled(p, d) <==> Submit(p, d).1.None?
    ensures SubmitDisabled(p, d) <==> -d.change > p.stock
  {
    Preview(p, d) < 0
  }

  /** `handleSubmit`: a negative result is refused with nothing changed;
      otherwise the callback gets exactly the new stock, the dialog closes
      and the change returns to 0. */
  function Submit(p: Product, d: Dialog): (r: (Dialog, Option<Call>))
    ensures r.1.None? <==> p.stock + d.change < 0
    ensures r.1.None? ==> r.0 == d
    ensures r.1.Some? ==> r.1.value == Call(p.id, p.stock + d.change) && r.1.value.newStock >= 0
    ensures r.1.Some? ==> !r.0.open && r.0.change == 0
  {
    var newStock := p.stock + d.change;
    if newStock < 0 then (d, None)
    else (Dialog(false, 0), Some(Call(p.id, newStock)))
  }

  /** The button is enabled exactly when a submit would call back, and the
      value called back is the previewed one. */
  lemma DisabledIffRejected(p: Product, d: Dialog)
    ensures SubmitDisabled(p, d) <==> Submit(p, d).1.None?
    ensures !SubmitDisabled(p, d) ==> Submit(p, d).1.value.newStock == Preview(p, d)
  {
  }

  /** The − button. */
  function Decrement(d: Dialog): (r: Dialog)
    ensures r.open == d.open
    ensures forall p: Product :: Preview(p, r) == Preview(p, d) - 1
  {
    d.(change := d.change - 1)
  }

  /** The + button. */
  function Increment(d: Dialog): (r: Dialog)
    ensures r.open == d.open
    ensures forall p: Product :: Preview(p, r) == Preview(p, d) + 1
  {
    d.(change := d.change + 1)
  }

  /** `setStockChange(parseInt(text) || 0)`. */
  function SetChangeFromText(d: Dialog, text: string): (r: Dialog)
    ensures r.open == d.open
    ensures (forall k :: 0 <= k < |text| ==> !IsDigit(text[k])) ==> r.change == 0
  {
    d.(change := ParseInt(text).GetOr(0))
  }

  /** Typing the decimal form of any integer sets the change to it. */
  lemma TypedChangeReadsBack(d: Dialog, n: int)
    ensures SetChangeFromText(d, IntToString(n)).change == n
  {
    ParseIntToString(n);
  }

  /** Submitting and forwarding the call to `handleUpdateStock` leaves the
      product at `stock + change`, never below zero, and touches nothing
      else. */
  lemma SubmitUpdatesCatalog(products: seq<Product>, i: int, d: Dialog)
    requires 0 <= i < |products|
    requires Submit(products[i], d).1.Some?
    ensures var c := Submit(products[i], d).1.value;
      var r := Lifecycle.HandleUpdateStock(products, c.id, c.newStock);
      r[i].stock == products[i].stock + d.change && r[i].stock >= 0 &&
      forall j :: 0 <= j < |products| && products[j].id != products[i].id ==> r[j] == products[j]
  {
  }
}
