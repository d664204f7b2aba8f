/**
 * The typing-test leaderboard: finished games are submitted with a name,
 * ranked by words per minute, then accuracy, then recency, and only the best
 * ten are kept in browser storage.
 *
 * Storage I/O and JSON are left abstract: what the store holds is a parameter
 * (`raw`), and decoding it is a parameter (`parse`) that returns `None` when
 * `JSON.parse` would throw.
 */
module Leaderboard {
  import opened Common
  import opened Seqs
  import opened StableSort

  datatype Entry = Entry(name: string, wpm: int, accuracy: int, timestamp: int)

  /** What the hook exposes: the list on screen and whether this game's score was submitted. */
  datatype Board = Board(entries: seq<Entry>, submitted: bool)

  const MaxEntries: nat := 10

  /**
   * The comparator `b.wpm - a.wpm || b.accuracy - a.accuracy || b.timestamp - a.timestamp`
   * is negative, putting `a` first, exactly when `a` wins on the first field
   * where the two differ.
   */
  predicate EntryAhead(a: Entry, b: Entry) {
    || a.wpm > b.wpm
    || (a.wpm == b.wpm && a.accuracy > b.accuracy)
    || (a.wpm == b.wpm && a.accuracy == b.accuracy && a.timestamp > b.timestamp)
  }

  lemma EntryAheadIsStrictWeakOrder()
    ensures StrictWeakOrder(EntryAhead)
  {
  }

  /** Two entries tie exactly when they agree on all three ranked fields. */
  lemma TiedEntries(a: Entry, b: Entry)
    ensures Tied(EntryAhead, a, b) <==> a.wpm == b.wpm && a.accuracy == b.accuracy && a.timestamp == b.timestamp
  {
  }

  /**
   * `getLeaderboardFromStorage`: no stored value, or the empty string, gives
   * an empty board, as does a stored value that does not parse.
   */
  function Load(raw: Option<string>, parse: string -> Option<seq<Entry>>): (r: seq<Entry>)
    ensures raw.None? || raw == Some("") ==> r == []
    ensures raw.Some? && raw.value != "" && parse(raw.value).None? ==> r == []
    ensures raw.Some? && raw.value != "" && parse(raw.value).Some? ==> r == parse(raw.value).value
  {
    match raw
    case None => []
    case Some(text) =>
      if text == "" then []
      else match parse(text)
        case None => []
        case Some(entries) => entries
  }

  function Min(a: nat, b: nat): nat {
    if a <= b then a else b
  }

  /**
   * `addEntryToLeaderboard`: the new entry is put in front of the stored
   * entries, the list is ranked, and its first ten entries are kept, shown
   * and saved.
   */
  function AddEntry(stored: seq<Entry>, entry: Entry): (r: seq<Entry>)
    ensures |r| == Min(MaxEntries, |stored| + 1)
    ensures Sorted(r, EntryAhead)
    ensures multiset(r) <= multiset([entry] + stored)
  {
    var all := Sort([entry] + stored, EntryAhead);
    EntryAheadIsStrictWeakOrder();
    SortSorted([entry] + stored, EntryAhead);
    var r := all[..Min(MaxEntries, |all|)];
    assert all == r + all[|r|..];
    r
  }

  /**
   * Nothing is lost except by truncation: every entry that did not make the
   * list is ranked no higher than any entry that did.
   */
  lemma DroppedRankNoHigher(stored: seq<Entry>, entry: Entry)
    ensures var r := AddEntry(stored, entry);
      forall x :: x in multiset([entry] + stored) - multiset(r) ==>
        forall i :: 0 <= i < |r| ==> !EntryAhead(x, r[i])
  {
    var all := Sort([entry] + stored, EntryAhead);
    var r := AddEntry(stored, entry);
    EntryAheadIsStrictWeakOrder();
    SortSorted([entry] + stored, EntryAhead);
    assert all == r + all[|r|..];
    forall x | x in multiset([entry] + stored) - multiset(r)
      ensures forall i :: 0 <= i < |r| ==> !EntryAhead(x, r[i])
    {
      assert multiset(all) == multiset(r) + multiset(all[|r|..]);
      assert x in all[|r|..];
      var j :| |r| <= j < |all| && all[j] == x;
    }
  }

  /**
   * Where the new entry lands: at index `k`, the number of stored entries
   * ranked strictly ahead of it, when that is within the first ten, behind
   * exactly those entries; otherwise every kept entry outranks it and it is
   * not on the board.
   */
  lemma NewEntryRank(stored: seq<Entry>, entry: Entry)
    ensures var k := CountAhead(stored, EntryAhead, entry);
      k < MaxEntries ==> PlacedAt(AddEntry(stored, entry), entry, k, EntryAhead)
    ensures var k := CountAhead(stored, EntryAhead, entry);
      k >= MaxEntries ==>
        (&& entry !in AddEntry(stored, entry)
         && forall i :: 0 <= i < |AddEntry(stored, entry)| ==> EntryAhead(AddEntry(stored, entry)[i], entry))
  {
    var all := Sort([entry] + stored, EntryAhead);
    var r := AddEntry(stored, entry);
    var k := CountAhead(stored, EntryAhead, entry);
    EntryAheadIsStrictWeakOrder();
    RankOfFirst(entry, stored, EntryAhead);
    assert r == all[..|r|];
    if k < MaxEntries {
      assert k < |r|;
      assert forall i :: k < i < |r| ==> r[i] == all[i];
    } else {
      assert forall i :: 0 <= i < |r| ==> r[i] == all[i];
    }
  }

  /** The board after a submission, which is flagged as submitted. */
  function Submit(stored: seq<Entry>, entry: Entry): (b: Board)
    ensures b.submitted
    ensures b.entries == AddEntry(stored, entry)
  {
    Board(AddEntry(stored, entry), true)
  }

  /** `clearLeaderboard`: the board is emptied (and the stored value removed). */
  function Clear(b: Board): (r: Board)
    ensures r.entries == [] && r.submitted == b.submitted
  {
    b.(entries := [])
  }

  /** `resetSubmissionStatus`: only the submitted flag changes. */
  function ResetSubmission(b: Board): (r: Board)
    ensures !r.submitted && r.entries == b.entries
  {
    b.(submitted := false)
  }

  /** `refreshLeaderboard`: the board shows what storage holds. */
  function Refresh(b: Board, raw: Option<string>, parse: string -> Option<seq<Entry>>): (r: Board)
    ensures r.entries == Load(raw, parse) && r.submitted == b.submitted
  {
    b.(entries := Load(raw, parse))
  }

  /** The board's invariant: ranked best first and no longer than ten. */
  ghost predicate Ranked(b: Board) {
    Sorted(b.entries, EntryAhead) && |b.entries| <= MaxEntries
  }

  /** A submission shows a ranked board, and clearing or resetting the flag keeps it ranked. */
  lemma BoardStaysRanked(b: Board, stored: seq<Entry>, entry: Entry)
    ensures Ranked(Submit(stored, entry))
    ensures Ranked(b) ==> Ranked(Clear(b)) && Ranked(ResetSubmission(b))
  {
  }

  /**
   * What a submission saves is what a refresh shows, given a serialiser that
   * `parse` inverts and that never produces the empty string.
   */
  lemma RefreshShowsSaved(b: Board, stored: seq<Entry>, entry: Entry,
                          serialize: seq<Entry> -> string, parse: string -> Option<seq<Entry>>)
    requires serialize(AddEntry(stored, entry)) != ""
    requires parse(serialize(AddEntry(stored, entry))) == Some(AddEntry(stored, entry))
    ensures Refresh(b, Some(serialize(AddEntry(stored, entry))), parse).entries == Submit(stored, entry).entries
    ensures Ranked(Refresh(b, Some(serialize(AddEntry(stored, entry))), parse))
  {
    BoardStaysRanked(b, stored, entry);
  }

  /** Clearing removes the stored value, so a refresh afterwards still shows an empty board. */
  lemma RefreshAfterClear(b: Board, parse: string -> Option<seq<Entry>>)
    ensures Refresh(Clear(b), None, parse) == Clear(b)
  {
  }
}
