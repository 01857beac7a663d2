/**
 * The quote generation client (src/services/groq.ts). The chat-completion
 * request itself is a foreign call; what comes back from it is a parameter
 * of GenerateQuotes. What the client does with the reply is modelled
 * exactly: take the first choice's message content (or the empty string),
 * split it on '|', trim every piece and drop the empty ones, keeping their
 * order; and turn any failure of the call into one fixed error.
 */
module GroqService {
  import opened Types
  import opened JsString

  const Separator: char := '|'

  /** The message of the error `generateQuotes` throws whatever went wrong. */
  const FailureMessage: string :=
    "No se pudieron generar las citas. Por favor, inténtalo de nuevo."

  /** A value thrown in JavaScript: an `Error` instance with its message, or
      anything else. */
  datatype Thrown = ErrorInstance(message: string) | NonError

  /** The parts of a chat completion the client reads. */
  datatype Message = Message(content: Option<string>)
  datatype Choice = Choice(message: Option<Message>)
  datatype Completion = Completion(choices: seq<Choice>)

  /** How the awaited SDK call ended. */
  datatype CallOutcome = Returned(completion: Completion) | Threw

  /** `chatCompletion.choices[0]?.message?.content || ''`. */
  function ContentOf(c: Completion): (content: string)
    ensures c.choices == [] ==> content == ""
    ensures |c.choices| > 0 && c.choices[0].message.Some? && c.choices[0].message.value.content.Some? ==>
              content == c.choices[0].message.value.content.value
    ensures content != "" ==> c.choices[0].message.Some? && c.choices[0].message.value.content == Some(content)
  {
    if |c.choices| > 0 && c.choices[0].message.Some? && c.choices[0].message.value.content.Some?
    then c.choices[0].message.value.content.value
    else ""
  }

  /** How many separators `s` holds. */
  function SeparatorCount(s: string): nat {
    if s == [] then 0 else (if s[0] == Separator then 1 else 0) + SeparatorCount(s[1..])
  }

  /** `s.split('|')`: the maximal separator-free pieces of `s`, one more than
      there are separators (so the empty string gives one empty piece). */
  function Split(s: string): (pieces: seq<string>)
    ensures |pieces| == SeparatorCount(s) + 1
    decreases |s|
  {
    if s == [] then [[]]
    else
      var rest := Split(s[1..]);
      if s[0] == Separator then [[]] + rest
      else [[s[0]] + rest[0]] + rest[1..]
  }

  /** `pieces.join('|')`, the inverse of Split. */
  function Join(pieces: seq<string>): string {
    if pieces == [] then []
    else if |pieces| == 1 then pieces[0]
    else pieces[0] + [Separator] + Join(pieces[1..])
  }

  /** `.map(quote => quote.trim())`. */
  function TrimAll(pieces: seq<string>): (trimmed: seq<string>)
    ensures |trimmed| == |pieces|
    ensures forall i :: 0 <= i < |pieces| ==> trimmed[i] == Trim(pieces[i])
    decreases |pieces|
  {
    if pieces == [] then [] else [Trim(pieces[0])] + TrimAll(pieces[1..])
  }

  /** `.filter(Boolean)` on strings: keeps the non-empty ones, in order
      (DropEmptyFilters states what it keeps). */
  function DropEmpty(ts: seq<string>): (kept: seq<string>)
    ensures |kept| <= |ts|
  {
    if ts == [] then [] else (if ts[0] == [] then [] else [ts[0]]) + DropEmpty(ts[1..])
  }

  /** The filter keeps only non-empty entries of its input, and keeps all of
      them exactly when none was empty. */
  lemma {:induction false} DropEmptyFilters(ts: seq<string>)
    ensures forall t :: t in DropEmpty(ts) ==> t != [] && t in ts
    ensures |DropEmpty(ts)| == |ts| <==> (forall t :: t in ts ==> t != [])
    decreases |ts|
  {
    if ts != [] {
      var rest := DropEmpty(ts[1..]);
      DropEmptyFilters(ts[1..]);
      assert DropEmpty(ts) == (if ts[0] == [] then [] else [ts[0]]) + rest;
      assert ts[0] in ts;
      assert forall t :: t in ts <==> t == ts[0] || t in ts[1..];
    }
  }

  /** No piece of a split contains the separator. */
  lemma {:induction false} SplitPiecesFree(s: string)
    ensures forall i :: 0 <= i < |Split(s)| ==> Separator !in Split(s)[i]
    decreases |s|
  {
    if s != [] {
      SplitPiecesFree(s[1..]);
      var rest := Split(s[1..]);
      if s[0] != Separator {
        var head := [s[0]] + rest[0];
        assert Split(s) == [head] + rest[1..];
        assert Separator !in head by {
          assert forall c :: c in head <==> c == s[0] || c in rest[0];
        }
      }
    }
  }

  /** The parse at the heart of `generateQuotes`:
      `content.split('|').map(quote => quote.trim()).filter(Boolean)`. */
  function ParseQuotes(content: string): (quotes: seq<string>)
    ensures |quotes| <= SeparatorCount(content) + 1
  {
    DropEmpty(TrimAll(Split(content)))
  }

  /** A quote the parser can return: non-empty, trimmed, separator-free. */
  predicate WellFormedQuote(q: string) {
    q != [] && IsTrimmed(q) && Separator !in q
  }

  /** `generateQuotes(prompt)` once the SDK call has ended: a thrown call is
      rethrown as an `Error` with the fixed message, whatever its cause;
      otherwise the content is parsed, and missing or empty content gives an
      empty list rather than an error. The count of ten that the system
      instruction asks for is not enforced. */
  function GenerateQuotes(outcome: CallOutcome): (r: Result<seq<string>, Thrown>)
    ensures r.Failure? <==> outcome.Threw?
    ensures r.Failure? ==> r.error == ErrorInstance(FailureMessage)
    ensures r.Success? ==> r.value == ParseQuotes(ContentOf(outcome.completion))
    ensures r.Success? && Blank(ContentOf(outcome.completion)) ==> r.value == []
    ensures r.Success? ==> forall q :: q in r.value ==> WellFormedQuote(q)
  {
    match outcome
    case Threw => Failure(ErrorInstance(FailureMessage))
    case Returned(c) =>
      var quotes := ParseQuotes(ContentOf(c));
      ParseQuotesWellFormed(ContentOf(c));
      if Blank(ContentOf(c)) then ParseBlank(ContentOf(c)); Success(quotes)
      else Success(quotes)
  }

  // ---------------------------------------------------------------------
  // Split and Join

  /** Splitting and joining again gives back the content. */
  lemma {:induction false} JoinSplit(s: string)
    ensures Join(Split(s)) == s
    decreases |s|
  {
    if s != [] {
      var rest := Split(s[1..]);
      JoinSplit(s[1..]);
      if s[0] == Separator {
        assert Split(s) == [[]] + rest;
        assert s == [] + [Separator] + s[1..];
      } else if |rest| == 1 {
        assert Split(s) == [[s[0]] + rest[0]];
        assert Join(rest) == rest[0];
        assert s == [s[0]] + s[1..];
      } else {
        var head := [s[0]] + rest[0];
        assert Split(s) == [head] + rest[1..];
        assert Split(s)[1..] == rest[1..];
        assert Join(rest) == rest[0] + [Separator] + Join(rest[1..]);
        assert s == [s[0]] + s[1..];
        assert Join(Split(s)) == head + [Separator] + Join(rest[1..]);
      }
    }
  }

  /** A separator-free string is a single piece. */
  lemma {:induction false} SplitWithoutSeparator(s: string)
    requires Separator !in s
    ensures Split(s) == [s]
    decreases |s|
  {
    if s != [] {
      assert s[1..] == s[1..];
      assert Separator !in s[1..] by {
        forall c | c in s[1..] ensures c != Separator { assert c in s; }
      }
      SplitWithoutSeparator(s[1..]);
      assert s == [s[0]] + s[1..];
    }
  }

  /** Split unfolded once on a string with a known first character. */
  lemma SplitCons(c: char, t: string)
    ensures Split([c] + t) == if c == Separator then [[]] + Split(t)
                              else [[c] + Split(t)[0]] + Split(t)[1..]
  {
    assert ([c] + t)[1..] == t;
  }

  /** A leading character lands in the first piece of a split that is
      known to be `ra + rb`, or, when it is the separator, opens a new
      empty piece. */
  lemma SplitConsAppend(c: char, x: string, ra: seq<string>, rb: seq<string>)
    requires ra != [] && Split(x) == ra + rb
    ensures Split([c] + x) == (if c == Separator then [[]] + ra else [[c] + ra[0]] + ra[1..]) + rb
  {
    SplitCons(c, x);
    if c != Separator {
      assert (ra + rb)[0] == ra[0];
      assert (ra + rb)[1..] == ra[1..] + rb;
    }
  }

  /** Splitting at a separator splits the pieces at that point. */
  lemma {:induction false} SplitAppend(a: string, b: string)
    ensures Split(a + [Separator] + b) == Split(a) + Split(b)
    decreases |a|
  {
    if a == [] {
      assert a + [Separator] + b == [Separator] + b;
      SplitCons(Separator, b);
    } else {
      var c, x := a[0], a[1..] + [Separator] + b;
      SplitAppend(a[1..], b);
      SplitConsAppend(c, x, Split(a[1..]), Split(b));
      SplitCons(c, a[1..]);
      assert a + [Separator] + b == [c] + x;
      assert a == [c] + a[1..];
    }
  }

  /** Joining separator-free pieces and splitting again gives back the
      pieces. */
  lemma {:induction false} SplitJoin(pieces: seq<string>)
    requires pieces != []
    requires forall p :: p in pieces ==> Separator !in p
    ensures Split(Join(pieces)) == pieces
    decreases |pieces|
  {
    SplitWithoutSeparator(pieces[0]);
    if |pieces| > 1 {
      SplitJoin(pieces[1..]);
      SplitAppend(pieces[0], Join(pieces[1..]));
      assert pieces == [pieces[0]] + pieces[1..];
    }
  }

  // ---------------------------------------------------------------------
  // Trimming and filtering

  lemma {:induction false} TrimAllAppend(a: seq<string>, b: seq<string>)
    ensures TrimAll(a + b) == TrimAll(a) + TrimAll(b)
    decreases |a|
  {
    if a == [] {
      assert a + b == b;
    } else {
      assert (a + b)[1..] == a[1..] + b;
      TrimAllAppend(a[1..], b);
    }
  }

  lemma {:induction false} DropEmptyAppend(a: seq<string>, b: seq<string>)
    ensures DropEmpty(a + b) == DropEmpty(a) + DropEmpty(b)
    decreases |a|
  {
    if a == [] {
      assert a + b == b;
    } else {
      var head := if a[0] == [] then [] else [a[0]];
      assert (a + b)[0] == a[0];
      assert (a + b)[1..] == a[1..] + b;
      DropEmptyAppend(a[1..], b);
      assert DropEmpty(a + b) == head + DropEmpty(a[1..] + b);
      assert DropEmpty(a) == head + DropEmpty(a[1..]);
    }
  }

  /** Filtering a list with no empty entry keeps all of it. */
  lemma {:induction false} DropEmptyKeepsNonEmpty(ts: seq<string>)
    requires forall t :: t in ts ==> t != []
    ensures DropEmpty(ts) == ts
    decreases |ts|
  {
    if ts != [] {
      assert forall t :: t in ts[1..] ==> t in ts;
      DropEmptyKeepsNonEmpty(ts[1..]);
      assert ts[0] in ts;
      assert DropEmpty(ts) == [ts[0]] + DropEmpty(ts[1..]);
      assert ts == [ts[0]] + ts[1..];
    }
  }

  // ---------------------------------------------------------------------
  // Properties of the parse

  /** No returned quote is empty, none starts or ends with whitespace, and
      none contains the separator. */
  lemma ParseQuotesWellFormed(content: string)
    ensures forall q :: q in ParseQuotes(content) ==> WellFormedQuote(q)
  {
    var pieces := Split(content);
    var trimmed := TrimAll(pieces);
    SplitPiecesFree(content);
    DropEmptyFilters(trimmed);
    forall q | q in ParseQuotes(content) ensures WellFormedQuote(q) {
      assert q in trimmed;
      var i :| 0 <= i < |trimmed| && trimmed[i] == q;
      assert q == Trim(pieces[i]);
      assert pieces[i] in pieces;
    }
  }

  /** Trimming then filtering keeps one entry per non-blank piece. */
  lemma {:induction false} TrimDropCount(pieces: seq<string>)
    ensures |DropEmpty(TrimAll(pieces))| == |pieces| <==> (forall p :: p in pieces ==> !Blank(p))
    ensures (forall p :: p in pieces ==> Blank(p)) ==> DropEmpty(TrimAll(pieces)) == []
    decreases |pieces|
  {
    if pieces != [] {
      var rest := pieces[1..];
      TrimDropCount(rest);
      var trimmed := TrimAll(pieces);
      assert trimmed[1..] == TrimAll(rest);
      assert forall p :: p in pieces <==> p == pieces[0] || p in rest;
    }
  }

  /** There are at most as many quotes as separators plus one, and exactly
      that many when every piece holds some non-whitespace text. */
  lemma ParseQuotesCount(content: string)
    ensures |ParseQuotes(content)| <= SeparatorCount(content) + 1
    ensures |ParseQuotes(content)| == SeparatorCount(content) + 1
            <==> (forall p :: p in Split(content) ==> !Blank(p))
  {
    TrimDropCount(Split(content));
  }

  /** Every piece of blank content is blank. */
  lemma {:induction false} SplitBlank(s: string)
    requires Blank(s)
    ensures forall p :: p in Split(s) ==> Blank(p)
    decreases |s|
  {
    if s != [] {
      SplitBlank(s[1..]);
      var rest := Split(s[1..]);
      if s[0] != Separator {
        var head := [s[0]] + rest[0];
        assert rest[0] in rest;
        assert Blank(head) by {
          forall i | 0 <= i < |head| ensures IsWhitespace(head[i]) {
            if i > 0 { assert head[i] == rest[0][i - 1]; }
          }
        }
        assert forall p :: p in rest[1..] ==> p in rest;
      }
    }
  }

  /** Blank content, the empty string included, gives no quotes. */
  lemma ParseBlank(content: string)
    requires Blank(content)
    ensures ParseQuotes(content) == []
  {
    SplitBlank(content);
    TrimDropCount(Split(content));
  }

  /** The quotes of two contents joined by a separator are the quotes of the
      first followed by those of the second: order is kept. */
  lemma ParseConcat(a: string, b: string)
    ensures ParseQuotes(a + [Separator] + b) == ParseQuotes(a) + ParseQuotes(b)
  {
    SplitAppend(a, b);
    TrimAllAppend(Split(a), Split(b));
    DropEmptyAppend(TrimAll(Split(a)), TrimAll(Split(b)));
  }

  /** Every quote written with its own padding in front and behind. */
  function Padded(quotes: seq<string>, befores: seq<string>, afters: seq<string>): (padded: seq<string>)
    requires |befores| == |quotes| && |afters| == |quotes|
    ensures |padded| == |quotes|
    ensures forall i :: 0 <= i < |quotes| ==> padded[i] == befores[i] + quotes[i] + afters[i]
  {
    seq(|quotes|, i requires 0 <= i < |quotes| => befores[i] + quotes[i] + afters[i])
  }

  /** Quotes the parser could have returned, written out separated by '|'
      with any whitespace before and after each of them (as in "A | B | C",
      where A has none before it and C none after it), parse back to exactly
      those quotes, in order. */
  lemma ParsePaddedRoundTrip(quotes: seq<string>, befores: seq<string>, afters: seq<string>)
    requires forall q :: q in quotes ==> WellFormedQuote(q)
    requires |befores| == |quotes| && |afters| == |quotes|
    requires forall i :: 0 <= i < |quotes| ==> Blank(befores[i]) && Blank(afters[i])
    ensures ParseQuotes(Join(Padded(quotes, befores, afters))) == quotes
  {
    if quotes == [] {
      ParseBlank([]);
      return;
    }
    var padded := Padded(quotes, befores, afters);
    assert !IsWhitespace(Separator);
    forall p | p in padded ensures Separator !in p {
      var i :| 0 <= i < |padded| && padded[i] == p;
      assert quotes[i] in quotes;
      assert p == befores[i] + quotes[i] + afters[i];
    }
    SplitJoin(padded);
    assert TrimAll(padded) == quotes by {
      forall i | 0 <= i < |quotes| ensures TrimAll(padded)[i] == quotes[i] {
        assert quotes[i] in quotes;
        TrimPadded(befores[i], quotes[i], afters[i]);
      }
    }
    DropEmptyKeepsNonEmpty(quotes);
  }
}
