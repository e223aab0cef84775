/** The transposition-table rules of GameView's minimax: which bound a stored
    score is (the flag), and how a stored entry found for a position either
    settles the search or narrows its alpha-beta window. */
module Transposition {
  import opened JavaText

  // Entry flags.
  const Exact: int := 0
  const LowerBound: int := 1
  const UpperBound: int := 2

  /** A table entry: the score found, the depth searched, and the flag. */
  datatype Entry = Entry(score: int, depth: int, flag: int)

  /** The flag a finished search stores for its fail-soft result best, given
      the window it was called with: at most alpha is an upper bound, at least
      beta a lower bound, anything between is exact. */
  function StoreFlag(best: int, originalAlpha: int, originalBeta: int): (flag: int)
    ensures flag == UpperBound <==> best <= originalAlpha
    ensures flag == LowerBound <==> originalAlpha < best && originalBeta <= best
    ensures flag == Exact <==> originalAlpha < best < originalBeta
  {
    if best <= originalAlpha then UpperBound
    else if best >= originalBeta then LowerBound
    else Exact
  }

  /** What a probe tells minimax: return this score at once, or go on
      searching with this window. */
  datatype Probe = Cutoff(score: int) | Search(alpha: int, beta: int)

  /** The table lookup at the top of minimax: an entry searched at least as
      deep returns an exact score at once, tightens alpha with a lower bound
      or beta with an upper bound, and returns its score when the window has
      closed. */
  function ProbeEntry(entry: Option<Entry>, depth: int, alpha: int, beta: int): (r: Probe)
    ensures r.Cutoff? <==>
      (entry.Some? && entry.value.depth >= depth &&
       (entry.value.flag == Exact || beta <= alpha ||
        (entry.value.flag == LowerBound && beta <= entry.value.score) ||
        (entry.value.flag == UpperBound && entry.value.score <= alpha)))
    ensures r.Cutoff? ==> r.score == entry.value.score
  {
    if entry.Some? && entry.value.depth >= depth then
      var e := entry.value;
      if e.flag == Exact then Cutoff(e.score)
      else
        var alpha' := if e.flag == LowerBound then Max(alpha, e.score) else alpha;
        var beta' := if e.flag == LowerBound then beta
                     else if e.flag == UpperBound then Min(beta, e.score) else beta;
        if alpha' >= beta' then Cutoff(e.score) else Search(alpha', beta')
    else Search(alpha, beta)
  }

  /** The window only ever narrows, and with a usable entry it stays open. */
  lemma ProbeNarrows(entry: Option<Entry>, depth: int, alpha: int, beta: int)
    ensures ProbeEntry(entry, depth, alpha, beta).Search? ==>
      alpha <= ProbeEntry(entry, depth, alpha, beta).alpha &&
      ProbeEntry(entry, depth, alpha, beta).beta <= beta
    ensures (entry.None? || entry.value.depth < depth) ==> ProbeEntry(entry, depth, alpha, beta) == Search(alpha, beta)
    ensures entry.Some? && entry.value.depth >= depth && ProbeEntry(entry, depth, alpha, beta).Search? ==>
      ProbeEntry(entry, depth, alpha, beta).alpha < ProbeEntry(entry, depth, alpha, beta).beta
  {
  }

  /** What a value v clamped to the window [alpha, beta] is: all an
      alpha-beta search within that window can tell apart. */
  function Clamp(v: int, alpha: int, beta: int): int
  {
    if v <= alpha then alpha else if v >= beta then beta else v
  }

  /** An entry is true of a position whose value is v when an exact score is
      v, a lower bound is at most v and an upper bound at least v. */
  predicate Sound(e: Entry, v: int)
  {
    (e.flag == Exact ==> v == e.score) &&
    (e.flag == LowerBound ==> e.score <= v) &&
    (e.flag == UpperBound ==> v <= e.score)
  }

  /** The fail-soft promise of an alpha-beta search called with the window
      (alpha, beta): a result at most alpha bounds the value from above, one
      at least beta bounds it from below, one in between is the value. */
  predicate FailSoft(best: int, v: int, alpha: int, beta: int)
  {
    (best <= alpha ==> v <= best) &&
    (beta <= best ==> best <= v) &&
    (alpha < best < beta ==> v == best)
  }

  /** The flag minimax stores makes a sound entry out of a fail-soft result. */
  lemma StoreSound(best: int, v: int, alpha: int, beta: int, depth: int)
    requires FailSoft(best, v, alpha, beta)
    ensures Sound(Entry(best, depth, StoreFlag(best, alpha, beta)), v)
  {
  }

  /** Probing a sound entry loses nothing: a cutoff returns a score that is,
      within the window, the position's value, and a narrowed window keeps
      the value the search would have seen in the original one. */
  lemma ProbeSound(e: Entry, v: int, depth: int, alpha: int, beta: int)
    requires Sound(e, v) && alpha < beta
    ensures ProbeEntry(Some(e), depth, alpha, beta).Cutoff? ==>
      Clamp(ProbeEntry(Some(e), depth, alpha, beta).score, alpha, beta) == Clamp(v, alpha, beta)
    ensures ProbeEntry(Some(e), depth, alpha, beta).Search? ==>
      Clamp(v, ProbeEntry(Some(e), depth, alpha, beta).alpha, ProbeEntry(Some(e), depth, alpha, beta).beta) ==
      Clamp(v, alpha, beta)
  {
  }

  /** Probing again with the window that produced an entry, at its depth or
      shallower, returns the stored score at once. */
  lemma ReprobeCuts(best: int, alpha: int, beta: int, depth: int, d: int)
    requires d <= depth
    ensures ProbeEntry(Some(Entry(best, depth, StoreFlag(best, alpha, beta))), d, alpha, beta) == Cutoff(best)
  {
  }
}
