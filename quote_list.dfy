/**
 * The quote cards (src/components/QuoteList.tsx): a single "being edited"
 * slot with its draft text, the save that trims the draft and only reports
 * non-blank text to the page, and the selected marker.
 */
module QuoteListState {
  import opened Types
  import opened JsString

  /** A call of the `onUpdateQuote(id, text)` callback. */
  datatype UpdateCall = UpdateCall(id: QuoteId, text: string)

  /** The card of `q` carries the selected marker:
      `selectedQuote?.id === quote.id`. The marker follows the id, so a card
      whose text differs from the selected copy is still marked. */
  predicate IsMarkedSelected(selected: Option<Quote>, q: Quote)
    ensures selected.None? ==> !IsMarkedSelected(selected, q)
    ensures selected.Some? && selected.value.id == q.id ==> IsMarkedSelected(selected, q)
  {
    selected.Some? && selected.value.id == q.id
  }

  /** Among cards with distinct ids at most one carries the selected marker,
      and a selected quote from the list marks one. */
  lemma AtMostOneMarked(qs: seq<Quote>, selected: Option<Quote>)
    requires DistinctIds(qs)
    ensures forall i, j ::
              0 <= i < |qs| && 0 <= j < |qs| && IsMarkedSelected(selected, qs[i]) && IsMarkedSelected(selected, qs[j])
              ==> i == j
    ensures selected.Some? && selected.value in qs ==>
              exists i :: 0 <= i < |qs| && IsMarkedSelected(selected, qs[i])
  {
  }

  class QuoteList {
    /** The quote whose card shows the editor, if any. */
    var editingId: Option<QuoteId>
    /** The editor's draft text. */
    var editText: string

    /** The initial `useState` values: nothing is being edited. */
    constructor ()
      ensures editingId == None && editText == ""
    {
      editingId := None;
      editText := "";
    }

    /** The card of `q` shows the editor: `editingId === quote.id`. There is
        one slot, so among quotes with distinct ids at most one is edited
        (AtMostOneEditing). */
    predicate IsEditing(q: Quote)
      reads this
      ensures editingId.None? ==> !IsEditing(q)
      ensures editingId == Some(q.id) ==> IsEditing(q)
    {
      editingId == Some(q.id)
    }

    /** `handleEdit(quote)`: opens the editor on `q` with its current text. */
    method HandleEdit(q: Quote)
      modifies this
      ensures editingId == Some(q.id) && editText == q.text
    {
      editingId := Some(q.id);
      editText := q.text;
    }

    /** The draft changes as the user types. */
    method ChangeEditText(text: string)
      modifies this`editText
      ensures editText == text
    {
      editText := text;
    }

    /** `handleSave(id)`: reports the trimmed draft when it is not blank, and
        always closes the editor. */
    method HandleSave(id: QuoteId) returns (call: Option<UpdateCall>)
      modifies this`editingId
      ensures editingId == None
      ensures call.Some? <==> !Blank(old(editText))
      ensures call.Some? ==> call.value.id == id
      ensures call.Some? ==> call.value.text != [] && IsTrimmed(call.value.text)
      ensures call.Some? ==> call.value.text == Trim(editText)
    {
      var trimmed := Trim(editText);
      if trimmed != [] {
        call := Some(UpdateCall(id, trimmed));
      } else {
        call := None;
      }
      editingId := None;
    }

    /** Among cards with distinct ids at most one shows the editor, and the
        card whose id is in the slot does. */
    lemma AtMostOneEditing(qs: seq<Quote>)
      requires DistinctIds(qs)
      ensures forall i, j ::
                0 <= i < |qs| && 0 <= j < |qs| && IsEditing(qs[i]) && IsEditing(qs[j]) ==> i == j
      ensures (exists k :: 0 <= k < |qs| && editingId == Some(qs[k].id)) ==>
                exists i :: 0 <= i < |qs| && IsEditing(qs[i])
    {
    }
  }
}
