/** The flashcard view of src/components/study-buddy.tsx: a deck of cards
    for a topic, the index of the card shown, and whether it is flipped.
    "Next" and "previous" step through the deck cyclically; submitting a
    topic clears the deck while the remote call runs. */
module StudyBuddy {
  import opened Wrappers
  import opened Text

  datatype Card = Card(question: string, answer: string)

  /** The view's state: the topic typed, the cards, the index of the card
      shown, whether it shows its answer, and whether a request is in
      flight. */
  datatype Deck = Deck(topic: string, cards: seq<Card>, index: nat, flipped: bool, loading: bool)

  /** The index names a card whenever there are cards, and while a request
      is in flight the deck is empty and at its first position. */
  predicate Valid(d: Deck) {
    && (|d.cards| == 0 ==> d.index == 0)
    && (|d.cards| > 0 ==> d.index < |d.cards|)
    && (d.loading ==> |d.cards| == 0 && d.index == 0)
  }

  /** `(prev + 1) % flashcards.length`: one step forward, wrapping from the
      last card to the first. */
  function NextIndex(i: nat, n: nat): (r: nat)
    requires n > 0
    ensures r < n
    ensures i + 1 < n ==> r == i + 1
    ensures i + 1 == n ==> r == 0
  {
    (i + 1) % n
  }

  /** `(prev - 1 + flashcards.length) % flashcards.length`: one step back,
      wrapping from the first card to the last. The operand is never
      negative, so JavaScript's `%` and Dafny's agree. */
  function PrevIndex(i: nat, n: nat): (r: nat)
    requires n > 0
    ensures r < n
    ensures 0 < i <= n ==> r == i - 1
    ensures i == 0 ==> r == n - 1
  {
    (i - 1 + n) % n
  }

  /** On a valid index, a step forward and a step back undo each other. */
  lemma NextPrevInverse(i: nat, n: nat)
    requires i < n
    ensures PrevIndex(NextIndex(i, n), n) == i
    ensures NextIndex(PrevIndex(i, n), n) == i
  {
  }

  /** `k` steps forward from card `i`. */
  function Advance(i: nat, n: nat, k: nat): (r: nat)
    requires i < n
    ensures r < n
  {
    if k == 0 then i else NextIndex(Advance(i, n, k - 1), n)
  }

  /** Up to a full round, stepping forward `k` times from card `i` lands `k`
      cards further on, counted around the end of the deck; a full round of
      `n` steps comes back to the starting card. */
  lemma {:induction false} AdvanceRotates(i: nat, n: nat, k: nat)
    requires i < n && k <= n
    ensures Advance(i, n, k) == if i + k < n then i + k else i + k - n
    ensures k == n ==> Advance(i, n, k) == i
  {
    if k > 0 {
      AdvanceRotates(i, n, k - 1);
    }
  }

  /** A number below `n` is its own remainder. */
  lemma ModSmall(i: nat, n: nat)
    requires i < n
    ensures i % n == i
  {
  }

  /** A nonzero multiple of `n` is at least `n` away from zero. */
  lemma MulAway(d: int, n: int)
    requires n > 0
    ensures d >= 1 ==> d * n >= n
    ensures d <= -1 ==> d * n <= -n
  {
  }

  /** Any quotient-and-remainder decomposition gives the remainder. */
  lemma ModUnique(a: nat, n: nat, q: int, r: nat)
    requires 0 < n && r < n && a == q * n + r
    ensures a % n == r
  {
    var q0, r0 := a / n, a % n;
    assert (q - q0) * n == r0 - r;
    MulAway(q - q0, n);
  }

  /** Stepping once past the remainder of `a` is the remainder of `a + 1`. */
  lemma ModSucc(a: nat, n: nat)
    requires n > 0
    ensures (a % n + 1) % n == (a + 1) % n
  {
    var q, r := a / n, a % n;
    if r + 1 < n {
      ModUnique(a + 1, n, q, r + 1);
      ModSmall(r + 1, n);
    } else {
      ModUnique(a + 1, n, q + 1, 0);
    }
  }

  /** Any number of presses: stepping forward `k` times from card `i` lands
      on card `(i + k) % n`, however many rounds that takes. */
  lemma {:induction false} AdvanceAnyRounds(i: nat, n: nat, k: nat)
    requires i < n
    ensures Advance(i, n, k) == (i + k) % n
  {
    if k == 0 {
      ModSmall(i, n);
    } else {
      var prev := Advance(i, n, k - 1);
      AdvanceAnyRounds(i, n, k - 1);
      assert Advance(i, n, k) == (prev + 1) % n;
      ModSucc(i + k - 1, n);
    }
  }

  /** `handleNextCard`: the card turns face down and the next one is shown. */
  function NextCard(d: Deck): (r: Deck)
    requires |d.cards| > 0
    ensures !r.flipped && r.cards == d.cards && r.topic == d.topic && r.loading == d.loading
    ensures r.index == NextIndex(d.index, |d.cards|)
    ensures Valid(d) ==> Valid(r)
  {
    d.(flipped := false, index := NextIndex(d.index, |d.cards|))
  }

  /** `handlePrevCard`: the card turns face down and the previous one is
      shown. */
  function PrevCard(d: Deck): (r: Deck)
    requires |d.cards| > 0
    ensures !r.flipped && r.cards == d.cards && r.topic == d.topic && r.loading == d.loading
    ensures r.index == PrevIndex(d.index, |d.cards|)
    ensures Valid(d) ==> Valid(r)
  {
    d.(flipped := false, index := PrevIndex(d.index, |d.cards|))
  }

  /** Forward then back shows the same card again, face down. */
  lemma NextThenPrev(d: Deck)
    requires Valid(d) && |d.cards| > 0
    ensures PrevCard(NextCard(d)) == d.(flipped := false)
  {
    NextPrevInverse(d.index, |d.cards|);
  }

  /** `handleSubmit(topic)` up to its `await`: a blank topic does nothing;
      otherwise the deck is emptied, back at its start, face down, and
      loading. */
  function Submit(d: Deck, topic: string): (r: Deck)
    ensures IsBlank(topic) ==> r == d
    ensures !IsBlank(topic) ==>
      r.cards == [] && r.index == 0 && !r.flipped && r.loading && r.topic == d.topic
    ensures Valid(d) ==> Valid(r)
  {
    if Trim(topic) == [] then d
    else d.(cards := [], index := 0, flipped := false, loading := true)
  }

  /** How the flashcard request settles: the cards produced, or a rejection. */
  datatype Generation = Generated(cards: seq<Card>) | GenerationFailed

  /** The rest of `handleSubmit`: a non-empty set of cards replaces the
      deck; an empty set or a failure (a toast) leaves it empty; loading
      ends either way. */
  function Finish(d: Deck, g: Generation): (r: Deck)
    requires d.loading
    ensures !r.loading && r.index == d.index && r.topic == d.topic && r.flipped == d.flipped
    ensures g.Generated? && |g.cards| > 0 ==> r.cards == g.cards
    ensures !(g.Generated? && |g.cards| > 0) ==> r.cards == d.cards
    ensures Valid(d) ==> Valid(r)
  {
    var cards := if g.Generated? && |g.cards| > 0 then g.cards else d.cards;
    d.(cards := cards, loading := false)
  }

  /** The mount effect on `initialData`: a non-empty seed topic is copied
      into the input, submitted, and then cleared, so it is used once. A
      missing or empty seed does nothing. */
  function ConsumeSeed(d: Deck, seed: Option<string>): (r: (Deck, Option<string>))
    ensures seed.Some? && seed.value != "" ==>
      r.1.None? && r.0 == Submit(d.(topic := seed.value), seed.value)
    ensures !(seed.Some? && seed.value != "") ==> r == (d, seed)
    ensures Valid(d) ==> Valid(r.0)
  {
    if seed.Some? && seed.value != "" then (Submit(d.(topic := seed.value), seed.value), None)
    else (d, seed)
  }

  /** A seed is used at most once: consuming again changes nothing. */
  lemma SeedUsedOnce(d: Deck, seed: Option<string>)
    ensures var r := ConsumeSeed(d, seed);
      ConsumeSeed(r.0, r.1) == r
  {
  }
}
