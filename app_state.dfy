/**
 * The page-level state of the application (src/App.tsx): the quote list,
 * the selected quote, the loading flag, the error banner and the last
 * prompt, and the three handlers that change them. The awaited service call
 * is one atomic step whose outcome is a parameter; `generateUniqueId`
 * (lib/utils, which is not part of this model) is a counter that hands out
 * a new identifier on every call.
 */
module AppState {
  import opened Types
  import opened GroqService

  /** Shown when the thrown value is not an `Error`. */
  const UnexpectedErrorMessage: string := "Ha ocurrido un error inesperado"

  /** `err instanceof Error ? err.message : 'Ha ocurrido un error inesperado'`. */
  function ErrorText(t: Thrown): (text: string)
    ensures t.ErrorInstance? ==> text == t.message
    ensures t.NonError? ==> text == UnexpectedErrorMessage
  {
    match t
    case ErrorInstance(message) => message
    case NonError => UnexpectedErrorMessage
  }

  /** `texts.map(text => ({ id: generateUniqueId(), text }))` with the id
      supply starting at `first`: one quote per text, same order and texts,
      every id fresh (at least `first`) and no id used twice. */
  function NewQuotes(texts: seq<string>, first: QuoteId): (qs: seq<Quote>)
    ensures |qs| == |texts|
    ensures forall i :: 0 <= i < |qs| ==> qs[i].text == texts[i]
    ensures forall i :: 0 <= i < |qs| ==> first <= qs[i].id < first + |texts|
    ensures DistinctIds(qs)
  {
    seq(|texts|, i requires 0 <= i < |texts| => Quote(first + i, texts[i]))
  }

  /** The texts of a quote list, in order. */
  function Texts(qs: seq<Quote>): (texts: seq<string>)
    ensures |texts| == |qs|
    ensures forall i :: 0 <= i < |qs| ==> texts[i] == qs[i].text
  {
    seq(|qs|, i requires 0 <= i < |qs| => qs[i].text)
  }

  /** `quotes.map(q => q.id === id ? { ...q, text } : q)`: only the text of
      the entries with that id changes; length, order, ids and every other
      entry stay as they were. */
  function UpdateById(qs: seq<Quote>, id: QuoteId, text: string): (r: seq<Quote>)
    ensures |r| == |qs|
    ensures forall i :: 0 <= i < |qs| ==> r[i].id == qs[i].id
    ensures forall i :: 0 <= i < |qs| && qs[i].id != id ==> r[i] == qs[i]
    ensures forall i :: 0 <= i < |qs| && qs[i].id == id ==> r[i].text == text
  {
    seq(|qs|, i requires 0 <= i < |qs| => if qs[i].id == id then qs[i].(text := text) else qs[i])
  }

  /** The first quote with the given id, the lookup a list of distinct ids
      makes unambiguous. */
  function Lookup(qs: seq<Quote>, id: QuoteId): Option<Quote> {
    if qs == [] then None
    else if qs[0].id == id then Some(qs[0])
    else Lookup(qs[1..], id)
  }

  /** After an update by id, looking that id up gives the new text (when the
      id was present at all), and looking up any other id gives what it gave
      before. */
  lemma {:induction false} LookupAfterUpdate(qs: seq<Quote>, id: QuoteId, text: string, other: QuoteId)
    ensures Lookup(UpdateById(qs, id, text), other)
            == if other != id then Lookup(qs, other)
               else if Lookup(qs, id).Some? then Some(Quote(id, text))
               else None
    decreases |qs|
  {
    if qs != [] {
      var r := UpdateById(qs, id, text);
      assert r[1..] == UpdateById(qs[1..], id, text);
      LookupAfterUpdate(qs[1..], id, text, other);
    }
  }

  /** Two updates of the same quote leave only the last text. */
  lemma UpdateLastWins(qs: seq<Quote>, id: QuoteId, first: string, second: string)
    ensures UpdateById(UpdateById(qs, id, first), id, second) == UpdateById(qs, id, second)
  {
    var once, twice := UpdateById(qs, id, second), UpdateById(UpdateById(qs, id, first), id, second);
    assert forall i :: 0 <= i < |qs| ==> twice[i] == once[i];
  }

  /** The selected quote is one of the listed quotes, unless there is no
      list to show (the list is only rendered when it is non-empty). */
  predicate SelectionInList(qs: seq<Quote>, selected: Option<Quote>) {
    selected.None? || qs == [] || selected.value in qs
  }

  /** Updating by id keeps the selection in the list when the selected
      quote's text is updated along with it. */
  lemma UpdateKeepsSelection(qs: seq<Quote>, selected: Option<Quote>, id: QuoteId, text: string)
    requires SelectionInList(qs, selected)
    ensures SelectionInList(UpdateById(qs, id, text),
                            if selected.Some? && selected.value.id == id
                            then Some(selected.value.(text := text)) else selected)
  {
    if selected.Some? && qs != [] {
      var i :| 0 <= i < |qs| && qs[i] == selected.value;
      assert UpdateById(qs, id, text)[i] in UpdateById(qs, id, text);
    }
  }

  class App {
    var quotes: seq<Quote>
    var selectedQuote: Option<Quote>
    var isLoading: bool
    var error: Option<string>
    var lastPrompt: string
    /** The next identifier `generateUniqueId` hands out. */
    var nextId: QuoteId

    /** No two listed quotes share an id, every listed id has already been
        handed out (so the next one is new), and the selection is one of them
        while there is a list. */
    ghost predicate Valid()
      reads this
    {
      && DistinctIds(quotes)
      && (forall q :: q in quotes ==> q.id < nextId)
      && SelectionInList(quotes, selectedQuote)
    }

    /** The initial `useState` values. */
    constructor ()
      ensures Valid()
      ensures quotes == [] && selectedQuote == None && !isLoading
      ensures error == None && lastPrompt == ""
    {
      quotes := [];
      selectedQuote := None;
      isLoading := false;
      error := None;
      lastPrompt := "";
      nextId := 0;
    }

    /** The synchronous start of `handleGenerateQuotes`: loading on, error
        cleared, prompt recorded; the list and selection stay as they were
        until the call ends. */
    method BeginGeneration(prompt: string)
      requires Valid()
      modifies this
      ensures Valid()
      ensures isLoading && error == None && lastPrompt == prompt
      ensures quotes == old(quotes) && selectedQuote == old(selectedQuote) && nextId == old(nextId)
    {
      isLoading := true;
      error := None;
      lastPrompt := prompt;
    }

    /** The end of `handleGenerateQuotes`. On success the list becomes one
        fresh quote per returned text and the selection is cleared; on
        failure the error banner shows the thrown message and the list is
        emptied, while the selection is left alone. Either way loading
        ends. */
    method FinishGeneration(result: Result<seq<string>, Thrown>)
      requires Valid()
      modifies this
      ensures Valid()
      ensures !isLoading && lastPrompt == old(lastPrompt)
      ensures result.Success? ==>
                && Texts(quotes) == result.value
                && (forall q :: q in quotes ==> old(nextId) <= q.id < nextId)
                && nextId == old(nextId) + |result.value|
                && selectedQuote == None && error == old(error)
      ensures result.Failure? ==>
                && quotes == [] && error == Some(ErrorText(result.error))
                && selectedQuote == old(selectedQuote) && nextId == old(nextId)
    {
      match result {
        case Success(texts) =>
          quotes := NewQuotes(texts, nextId);
          nextId := nextId + |texts|;
          selectedQuote := None;
        case Failure(thrown) =>
          error := Some(ErrorText(thrown));
          quotes := [];
      }
      isLoading := false;
    }

    /** `handleGenerateQuotes(prompt)` with the service call ending as
        `outcome`. */
    method HandleGenerateQuotes(prompt: string, outcome: CallOutcome)
      requires Valid()
      modifies this
      ensures Valid()
      ensures !isLoading && lastPrompt == prompt
      ensures outcome.Returned? ==>
                && Texts(quotes) == ParseQuotes(ContentOf(outcome.completion))
                && (forall q :: q in quotes ==> WellFormedQuote(q.text))
                && (forall q :: q in quotes ==> old(nextId) <= q.id)
                && selectedQuote == None && error == None
      ensures outcome.Threw? ==>
                && quotes == [] && error == Some(FailureMessage)
                && selectedQuote == old(selectedQuote)
    {
      BeginGeneration(prompt);
      var result := GenerateQuotes(outcome);
      FinishGeneration(result);
      if outcome.Returned? {
        forall q | q in quotes ensures WellFormedQuote(q.text) {
          var i :| 0 <= i < |quotes| && quotes[i] == q;
          assert Texts(quotes)[i] in result.value;
        }
      }
    }

    /** `handleRegenerateQuotes`: generates again from the last prompt, and
        does nothing at all when there is none. */
    method HandleRegenerateQuotes(outcome: CallOutcome)
      requires Valid()
      modifies this
      ensures Valid()
      ensures lastPrompt == old(lastPrompt)
      ensures old(lastPrompt) == "" ==>
                && quotes == old(quotes) && selectedQuote == old(selectedQuote)
                && isLoading == old(isLoading) && error == old(error) && nextId == old(nextId)
      ensures old(lastPrompt) != "" && outcome.Returned? ==>
                && !isLoading
                && Texts(quotes) == ParseQuotes(ContentOf(outcome.completion))
                && selectedQuote == None && error == None
      ensures old(lastPrompt) != "" && outcome.Threw? ==>
                && !isLoading && quotes == [] && error == Some(FailureMessage)
                && selectedQuote == old(selectedQuote)
    {
      if lastPrompt != "" {
        HandleGenerateQuotes(lastPrompt, outcome);
      }
    }

    /** `onSelectQuote`, called with one of the listed quotes. */
    method SelectQuote(q: Quote)
      requires Valid()
      requires q in quotes
      modifies this`selectedQuote
      ensures Valid()
      ensures selectedQuote == Some(q)
    {
      selectedQuote := Some(q);
    }

    /** `onUpdateQuote(id, text)`: rewrites the list by id, and the selected
        quote too when it has that id. */
    method UpdateQuote(id: QuoteId, text: string)
      requires Valid()
      modifies this`quotes, this`selectedQuote
      ensures Valid()
      ensures quotes == UpdateById(old(quotes), id, text)
      ensures old(selectedQuote).Some? && old(selectedQuote).value.id == id ==>
                selectedQuote == Some(Quote(id, text))
      ensures !(old(selectedQuote).Some? && old(selectedQuote).value.id == id) ==>
                selectedQuote == old(selectedQuote)
    {
      UpdateKeepsSelection(quotes, selectedQuote, id, text);
      quotes := UpdateById(quotes, id, text);
      if selectedQuote.Some? && selectedQuote.value.id == id {
        selectedQuote := Some(selectedQuote.value.(text := text));
      }
    }
  }
}
