/**
 * The session state of the Idea Forge page (App.tsx): the text being typed,
 * the history of generated notes (newest first, at most `MAX_HISTORY`), the
 * note on display and the processing status, and the handlers that change
 * them.
 */
module App {
  import opened Wrappers
  import Text

  /** How many generated notes the history keeps. */
  const MAX_HISTORY: nat := 20

  /** How much of the user's text a history entry shows. */
  const PREVIEW_LENGTH: nat := 40

  const ELLIPSIS: string := "..."

  /** The status message when something other than an `Error` was thrown. */
  const UNKNOWN_ERROR: string := "Unknown error occurred"

  /** A generated note as the history keeps it (`ProcessedIdea`). */
  datatype Idea = Idea(id: string, original: string, markdown: string, timestamp: int, preview: string)

  /** `ProcessingState`: the error message belongs to the error status. */
  datatype Status = Idle | Loading | Success | Failed(error: string)

  /** How the call to the note generator ended: with the Markdown text, or
      by throwing; the message is there when an `Error` was thrown. */
  datatype Outcome = Generated(markdown: string) | Thrown(message: Option<string>)

  /** The preview of a history entry: the first 40 characters of the text,
      followed by `...` exactly when the text is longer. */
  function Preview(input: string): (r: string)
    ensures |r| == if |input| <= PREVIEW_LENGTH then |input| else PREVIEW_LENGTH + |ELLIPSIS|
    ensures |r| <= PREVIEW_LENGTH + |ELLIPSIS|
    ensures |input| <= PREVIEW_LENGTH ==> r == input
    ensures |input| > PREVIEW_LENGTH ==> r[..PREVIEW_LENGTH] == input[..PREVIEW_LENGTH] && r[PREVIEW_LENGTH..] == ELLIPSIS
  {
    Text.Take(input, PREVIEW_LENGTH) + (if |input| > PREVIEW_LENGTH then ELLIPSIS else "")
  }

  /** The entry recorded for a generation. */
  function NewIdea(id: string, original: string, markdown: string, now: int): Idea {
    Idea(id, original, markdown, now, Preview(original))
  }

  /** `[idea, ...h].slice(0, MAX_HISTORY)`: the new entry first, then the
      earlier ones in their order, as many as fit. */
  function InsertNewest(h: seq<Idea>, idea: Idea): (r: seq<Idea>)
    ensures |r| == Text.Min(|h| + 1, MAX_HISTORY)
    ensures r[0] == idea
    ensures r[1..] <= h
    ensures |h| < MAX_HISTORY ==> r[1..] == h
  {
    var r := Text.Take([idea] + h, MAX_HISTORY);
    assert r[1..] == ([idea] + h)[1..|r|];
    r
  }

  /** The entries in the opposite order: the last comes first. */
  function Reversed<T>(s: seq<T>): (r: seq<T>)
    ensures |r| == |s|
    ensures forall k :: 0 <= k < |s| ==> r[k] == s[|s| - 1 - k]
  {
    if s == [] then [] else Reversed(s[1..]) + [s[0]]
  }

  /** The history after the entries `es` were generated one after the other. */
  function InsertAll(h: seq<Idea>, es: seq<Idea>): seq<Idea>
    decreases |es|
  {
    if es == [] then h else InsertAll(InsertNewest(h, es[0]), es[1..])
  }

  /** Cutting a list short and then cutting its extension short is cutting
      the whole extension short. */
  lemma TakeOfTake(xs: seq<Idea>, ys: seq<Idea>, n: nat)
    ensures Text.Take(xs + Text.Take(ys, n), n) == Text.Take(xs + ys, n)
  {
    var a := Text.Take(xs + Text.Take(ys, n), n);
    var b := Text.Take(xs + ys, n);
    assert |a| == |b|;
    forall i | 0 <= i < |a| ensures a[i] == b[i] {
      if i >= |xs| {
        assert a[i] == Text.Take(ys, n)[i - |xs|];
      }
    }
  }

  /** However many notes were generated, the history holds the latest
      `MAX_HISTORY` of them, newest first, followed by what fits of the
      earlier history. */
  lemma {:induction false} InsertAllIsLatest(h: seq<Idea>, es: seq<Idea>)
    requires |h| <= MAX_HISTORY
    ensures InsertAll(h, es) == Text.Take(Reversed(es) + h, MAX_HISTORY)
    decreases |es|
  {
    if es == [] {
      assert Reversed(es) + h == h;
    } else {
      InsertAllIsLatest(InsertNewest(h, es[0]), es[1..]);
      InsertFirst(h, es);
    }
  }

  /** One insertion followed by the later ones. */
  lemma InsertFirst(h: seq<Idea>, es: seq<Idea>)
    requires es != []
    ensures Text.Take(Reversed(es[1..]) + InsertNewest(h, es[0]), MAX_HISTORY)
         == Text.Take(Reversed(es) + h, MAX_HISTORY)
  {
    var e, rest := es[0], es[1..];
    calc {
      Text.Take(Reversed(rest) + InsertNewest(h, e), MAX_HISTORY);
      Text.Take(Reversed(rest) + Text.Take([e] + h, MAX_HISTORY), MAX_HISTORY);
      { TakeOfTake(Reversed(rest), [e] + h, MAX_HISTORY); }
      Text.Take(Reversed(rest) + ([e] + h), MAX_HISTORY);
      { ReversedFirst(es, h); }
      Text.Take(Reversed(es) + h, MAX_HISTORY);
    }
  }

  lemma ReversedFirst(es: seq<Idea>, h: seq<Idea>)
    requires es != []
    ensures Reversed(es[1..]) + ([es[0]] + h) == Reversed(es) + h
  {
    ReversedCons(es);
    AppendAssoc(Reversed(es[1..]), es[0], h);
  }

  lemma ReversedCons(es: seq<Idea>)
    requires es != []
    ensures Reversed(es) == Reversed(es[1..]) + [es[0]]
  {
  }

  lemma AppendAssoc(a: seq<Idea>, e: Idea, h: seq<Idea>)
    ensures a + ([e] + h) == (a + [e]) + h
  {
  }

  /** `h.filter(x => x.id !== id)`. */
  function RemoveId(h: seq<Idea>, id: string): (r: seq<Idea>)
    ensures forall x :: x in r <==> x in h && x.id != id
    ensures |r| <= |h|
    ensures (forall x :: x in h ==> x.id != id) <==> r == h
  {
    if h == [] then []
    else
      var rest := RemoveId(h[1..], id);
      assert forall x :: x in h <==> x == h[0] || x in h[1..];
      if h[0].id == id then rest else [h[0]] + rest
  }

  /** Removing keeps the order of the remaining entries: it works on each
      part of the history separately. */
  lemma {:induction false} RemoveIdAppend(xs: seq<Idea>, ys: seq<Idea>, id: string)
    ensures RemoveId(xs + ys, id) == RemoveId(xs, id) + RemoveId(ys, id)
    decreases |xs|
  {
    if xs != [] {
      var zs := xs + ys;
      assert zs[0] == xs[0] && zs[1..] == xs[1..] + ys;
      RemoveIdAppend(xs[1..], ys, id);
      if xs[0].id != id {
        assert RemoveId(zs, id) == [xs[0]] + RemoveId(xs[1..] + ys, id);
        assert RemoveId(xs, id) == [xs[0]] + RemoveId(xs[1..], id);
      }
    } else {
      assert xs + ys == ys;
    }
  }

  /** Removing twice is removing once. */
  lemma RemoveIdIdempotent(h: seq<Idea>, id: string)
    ensures RemoveId(RemoveId(h, id), id) == RemoveId(h, id)
  {
  }

  /** No two entries share an id. */
  predicate UniqueIds(h: seq<Idea>) {
    forall i, j :: 0 <= i < j < |h| ==> h[i].id != h[j].id
  }

  /** Deleting keeps the ids distinct. */
  lemma {:induction false} RemoveKeepsUnique(h: seq<Idea>, id: string)
    requires UniqueIds(h)
    ensures UniqueIds(RemoveId(h, id))
    decreases |h|
  {
    if h != [] {
      var rest := h[1..];
      assert UniqueIds(rest) by {
        forall i, j | 0 <= i < j < |rest| ensures rest[i].id != rest[j].id {
          assert rest[i] == h[i + 1] && rest[j] == h[j + 1];
        }
      }
      RemoveKeepsUnique(rest, id);
      if h[0].id != id {
        forall x | x in RemoveId(rest, id) ensures x.id != h[0].id {
          var k :| 0 <= k < |rest| && rest[k] == x;
          assert h[k + 1] == x;
        }
        ConsUnique(h[0], RemoveId(rest, id));
      }
    }
  }

  /** An entry whose id no later entry has, before entries with distinct ids. */
  lemma ConsUnique(x: Idea, rest: seq<Idea>)
    requires UniqueIds(rest)
    requires forall y :: y in rest ==> y.id != x.id
    ensures UniqueIds([x] + rest)
  {
    var r := [x] + rest;
    forall i, j | 0 <= i < j < |r| ensures r[i].id != r[j].id {
      assert r[j] == rest[j - 1];
      if i > 0 {
        assert r[i] == rest[i - 1];
      } else {
        assert rest[j - 1] in rest;
      }
    }
  }

  /** A new entry with a fresh id keeps the ids distinct. */
  lemma InsertKeepsUnique(h: seq<Idea>, idea: Idea)
    requires UniqueIds(h)
    requires forall x :: x in h ==> x.id != idea.id
    ensures UniqueIds(InsertNewest(h, idea))
  {
    var r := InsertNewest(h, idea);
    forall i, j | 0 <= i < j < |r| ensures r[i].id != r[j].id {
      assert r[j] == h[j - 1];
      if i > 0 {
        assert r[i] == h[i - 1];
      } else {
        assert h[j - 1] in h;
      }
    }
  }

  /** With distinct ids, deleting a present id removes exactly one entry. */
  lemma {:induction false} RemoveUniqueOne(h: seq<Idea>, id: string)
    requires UniqueIds(h)
    requires exists x :: x in h && x.id == id
    ensures |RemoveId(h, id)| == |h| - 1
    decreases |h|
  {
    if h[0].id == id {
      forall x | x in h[1..] ensures x.id != id {
        var k :| 0 <= k < |h[1..]| && h[1..][k] == x;
        assert h[k + 1] == x;
      }
    } else {
      var x :| x in h && x.id == id;
      assert x in h[1..];
      RemoveUniqueOne(h[1..], id);
    }
  }

  /** The state of the page. */
  class Session {
    var input: string
    var history: seq<Idea>
    var current: Option<Idea>
    var status: Status

    /** The history never holds more than `MAX_HISTORY` entries. */
    predicate Valid()
      reads this
    {
      |history| <= MAX_HISTORY
    }

    /** A fresh page: nothing typed, no history, nothing shown, idle. */
    constructor()
      ensures Valid()
      ensures input == "" && history == [] && current == None && status == Idle
    {
      input := "";
      history := [];
      current := None;
      status := Idle;
    }

    /** Typing in the text area. */
    method Edit(text: string)
      modifies this
      ensures input == text
      ensures history == old(history) && current == old(current) && status == old(status)
    {
      input := text;
    }

    /** The synchronous start of `handleProcess`: text of white space alone
        changes nothing and sends nothing; other text is sent and the status
        becomes loading. */
    method BeginProcess() returns (submitted: Option<string>)
      modifies this
      ensures Text.IsBlank(old(input)) ==> submitted == None && status == old(status)
      ensures !Text.IsBlank(old(input)) ==> submitted == Some(old(input)) && status == Loading
      ensures input == old(input) && history == old(history) && current == old(current)
    {
      if Text.Trim(input) == [] {
        return None;
      }
      submitted := Some(input);
      status := Loading;
    }

    /** The end of `handleProcess` for the text `submitted`, once the
        generator has answered with `outcome`; `freshId` and `now` stand for
        `crypto.randomUUID()` and `Date.now()`. A success records and shows a
        new entry and clears the text area; a failure only reports the
        error. */
    method CompleteProcess(submitted: string, outcome: Outcome, freshId: string, now: int)
      requires Valid()
      modifies this
      ensures Valid()
      ensures outcome.Generated? ==>
        var idea := NewIdea(freshId, submitted, outcome.markdown, now);
        && history == InsertNewest(old(history), idea)
        && current == Some(idea)
        && status == Success
        && input == ""
      ensures outcome.Thrown? ==>
        && status == Failed(outcome.message.GetOr(UNKNOWN_ERROR))
        && history == old(history) && current == old(current) && input == old(input)
      ensures UniqueIds(old(history)) && (forall x :: x in old(history) ==> x.id != freshId)
              ==> UniqueIds(history)
    {
      match outcome
      case Generated(markdown) =>
        var idea := NewIdea(freshId, submitted, markdown, now);
        if UniqueIds(history) && forall x :: x in history ==> x.id != freshId {
          InsertKeepsUnique(history, idea);
        }
        current := Some(idea);
        history := InsertNewest(history, idea);
        status := Success;
        input := "";
      case Thrown(message) =>
        status := Failed(message.GetOr(UNKNOWN_ERROR));
    }

    /** `handleProcess` when nothing happens while the generator works. */
    method Process(outcome: Outcome, freshId: string, now: int)
      requires Valid()
      modifies this
      ensures Valid()
      ensures Text.IsBlank(old(input)) ==>
        input == old(input) && history == old(history) && current == old(current) && status == old(status)
      ensures !Text.IsBlank(old(input)) && outcome.Generated? ==>
        var idea := NewIdea(freshId, old(input), outcome.markdown, now);
        && history == InsertNewest(old(history), idea)
        && history[0].original == old(input)
        && current == Some(idea)
        && status == Success
        && input == ""
      ensures !Text.IsBlank(old(input)) && outcome.Thrown? ==>
        && status == Failed(outcome.message.GetOr(UNKNOWN_ERROR))
        && history == old(history) && current == old(current) && input == old(input)
    {
      var submitted := BeginProcess();
      if submitted.Some? {
        CompleteProcess(submitted.value, outcome, freshId, now);
      }
    }

    /** `handleSelectHistory`: show the chosen entry. */
    method Select(item: Idea)
      modifies this
      ensures current == Some(item)
      ensures history == old(history) && input == old(input) && status == old(status)
    {
      current := Some(item);
    }

    /** `handleDeleteHistory`: drop every entry with the id, and stop showing
        the note when it is the one deleted. */
    method Delete(id: string)
      requires Valid()
      modifies this
      ensures Valid()
      ensures history == RemoveId(old(history), id)
      ensures UniqueIds(old(history)) ==> UniqueIds(history)
      ensures old(current).Some? && old(current).value.id == id ==> current == None
      ensures !(old(current).Some? && old(current).value.id == id) ==> current == old(current)
      ensures input == old(input) && status == old(status)
    {
      if UniqueIds(history) {
        RemoveKeepsUnique(history, id);
      }
      history := RemoveId(history, id);
      if current.Some? && current.value.id == id {
        current := None;
      }
    }

    /** `handleNew`: a blank page; the history stays. */
    method New()
      modifies this
      ensures current == None && input == "" && status == Idle
      ensures history == old(history)
    {
      current := None;
      input := "";
      status := Idle;
    }
  }
}
