/**
  The transcript the reader page builds: a list of paragraphs, each a list of
  fetched words. A word whose text is the break sentinel opens a new paragraph
  and is not stored; every other word goes at the end of the last paragraph.
 */
module Transcripts {

  /** The word text the server sends for a paragraph boundary. */
  const Break: string := "**Break**"

  /** One fetched result: the index asked for, its text and the measured round trip in milliseconds. */
  datatype Word = Word(index: nat, text: string, duration: real)

  type Paragraph = seq<Word>
  type Transcript = seq<Paragraph>

  /** The transcript the page starts with: one empty paragraph. */
  const Initial: Transcript := [[]]

  predicate IsBreak(w: Word) {
    w.text == Break
  }

  /** All paragraphs concatenated in order, as `words.flat()` gives them. */
  function Flatten(t: Transcript): seq<Word> {
    if t == [] then [] else Flatten(t[..|t| - 1]) + t[|t| - 1]
  }

  /** A word is in the flattened transcript exactly when some paragraph holds it. */
  lemma {:induction false} FlattenMembers(t: Transcript)
    ensures forall i, j :: 0 <= i < |t| && 0 <= j < |t[i]| ==> t[i][j] in Flatten(t)
    ensures forall w :: w in Flatten(t) ==> exists i :: 0 <= i < |t| && w in t[i]
  {
    if t != [] {
      FlattenMembers(t[..|t| - 1]);
    }
  }

  /** The results of a run with the sentinels removed, in their order. */
  function Content(rs: seq<Word>): seq<Word> {
    if rs == [] then []
    else Content(rs[..|rs| - 1]) + (if IsBreak(rs[|rs| - 1]) then [] else [rs[|rs| - 1]])
  }

  /** How many of the results are sentinels. */
  function Sentinels(rs: seq<Word>): nat {
    if rs == [] then 0
    else Sentinels(rs[..|rs| - 1]) + (if IsBreak(rs[|rs| - 1]) then 1 else 0)
  }

  /** Every result is either kept as content or counted as a sentinel. */
  lemma {:induction false} ContentAndSentinels(rs: seq<Word>)
    ensures |Content(rs)| + Sentinels(rs) == |rs|
  {
    if rs != [] {
      ContentAndSentinels(rs[..|rs| - 1]);
    }
  }

  /** No paragraph holds a sentinel word. */
  ghost predicate NoBreakStored(t: Transcript) {
    forall i, j :: 0 <= i < |t| && 0 <= j < |t[i]| ==> !IsBreak(t[i][j])
  }

  /**
    The state updater that folds one result into the transcript. On an empty
    transcript a non-sentinel word has no last paragraph to go to (the page
    would fail there), hence the precondition; the page never reaches it.
   */
  function AddWord(t: Transcript, w: Word): (r: Transcript)
    requires t != [] || IsBreak(w)
    ensures r != []
    ensures |r| == if IsBreak(w) then |t| + 1 else |t|
    ensures forall i :: 0 <= i < |t| - 1 ==> r[i] == t[i]
    ensures IsBreak(w) ==> r[|t|] == [] && (t != [] ==> r[|t| - 1] == t[|t| - 1])
    ensures !IsBreak(w) ==> r[|t| - 1] == t[|t| - 1] + [w]
  {
    if IsBreak(w) then t + [[]]
    else t[..|t| - 1] + [t[|t| - 1] + [w]]
  }

  /** Folds the results into the transcript one after another, oldest first. */
  function Replay(t: Transcript, rs: seq<Word>): (r: Transcript)
    requires t != []
    ensures r != []
  {
    if rs == [] then t else AddWord(Replay(t, rs[..|rs| - 1]), rs[|rs| - 1])
  }

  lemma FlattenSnoc(t: Transcript, p: Paragraph)
    ensures Flatten(t + [p]) == Flatten(t) + p
  {
    assert (t + [p])[..|t|] == t;
  }

  /** Adding a result extends the flattened transcript by that word, or by nothing for a sentinel. */
  lemma AddWordFlatten(t: Transcript, w: Word)
    requires t != [] || IsBreak(w)
    ensures Flatten(AddWord(t, w)) == Flatten(t) + (if IsBreak(w) then [] else [w])
  {
    if IsBreak(w) {
      FlattenSnoc(t, []);
    } else {
      var n := |t|;
      assert t == t[..n - 1] + [t[n - 1]];
      FlattenSnoc(t[..n - 1], t[n - 1]);
      FlattenSnoc(t[..n - 1], t[n - 1] + [w]);
    }
  }

  /** A transcript without stored sentinels keeps that property when a result is added. */
  lemma AddWordNoBreak(t: Transcript, w: Word)
    requires t != [] || IsBreak(w)
    requires NoBreakStored(t)
    ensures NoBreakStored(AddWord(t, w))
  {
    var r := AddWord(t, w);
    forall i, j | 0 <= i < |r| && 0 <= j < |r[i]|
      ensures !IsBreak(r[i][j])
    {
      if i < |t| - 1 {
        assert r[i] == t[i];
      } else if IsBreak(w) {
        if i == |t| - 1 { assert r[i] == t[i]; }
      } else {
        assert r[i] == t[|t| - 1] + [w];
        if j < |t[|t| - 1]| { assert r[i][j] == t[i][j]; }
      }
    }
  }

  lemma ReplaySnoc(t: Transcript, rs: seq<Word>, w: Word)
    requires t != []
    ensures Replay(t, rs + [w]) == AddWord(Replay(t, rs), w)
  {
    assert (rs + [w])[..|rs|] == rs;
  }

  lemma ContentSnoc(rs: seq<Word>, w: Word)
    ensures Content(rs + [w]) == Content(rs) + (if IsBreak(w) then [] else [w])
    ensures Sentinels(rs + [w]) == Sentinels(rs) + (if IsBreak(w) then 1 else 0)
  {
    assert (rs + [w])[..|rs|] == rs;
  }

  /** Folding results in order: the flattened transcript grows by exactly the non-sentinel results. */
  lemma {:induction false} ReplayFlatten(t: Transcript, rs: seq<Word>)
    requires t != []
    ensures Flatten(Replay(t, rs)) == Flatten(t) + Content(rs)
  {
    if rs != [] {
      var init, last := rs[..|rs| - 1], rs[|rs| - 1];
      assert rs == init + [last];
      ReplayFlatten(t, init);
      AddWordFlatten(Replay(t, init), last);
      ContentSnoc(init, last);
    }
  }

  /** Folding results in order: one new paragraph per sentinel, and no other. */
  lemma {:induction false} ReplayParagraphs(t: Transcript, rs: seq<Word>)
    requires t != []
    ensures |Replay(t, rs)| == |t| + Sentinels(rs)
  {
    if rs != [] {
      var init, last := rs[..|rs| - 1], rs[|rs| - 1];
      assert rs == init + [last];
      ReplayParagraphs(t, init);
      ContentSnoc(init, last);
    }
  }

  /**
    Folding results never touches the paragraphs before the last one, and the
    last paragraph only grows at its end.
   */
  lemma {:induction false} ReplayKeepsEarlier(t: Transcript, rs: seq<Word>)
    requires t != []
    ensures |t| <= |Replay(t, rs)|
    ensures forall i :: 0 <= i < |t| - 1 ==> Replay(t, rs)[i] == t[i]
    ensures t[|t| - 1] <= Replay(t, rs)[|t| - 1]
  {
    if rs != [] {
      var init, last := rs[..|rs| - 1], rs[|rs| - 1];
      ReplayKeepsEarlier(t, init);
      var before := Replay(t, init);
      var after := AddWord(before, last);
      assert after == Replay(t, rs);
      if IsBreak(last) || |t| < |before| {
        assert after[|t| - 1] == before[|t| - 1];
      } else {
        assert after[|t| - 1] == before[|t| - 1] + [last];
      }
    }
  }

  /** Folding results never stores a sentinel word. */
  lemma {:induction false} ReplayNoBreak(t: Transcript, rs: seq<Word>)
    requires t != []
    requires NoBreakStored(t)
    ensures NoBreakStored(Replay(t, rs))
  {
    if rs != [] {
      ReplayNoBreak(t, rs[..|rs| - 1]);
      AddWordNoBreak(Replay(t, rs[..|rs| - 1]), rs[|rs| - 1]);
    }
  }

  /**
    From the page's initial transcript: the flattened transcript is exactly
    the results with the sentinels removed, there is one paragraph more than
    there were sentinels, and no sentinel is stored.
   */
  lemma FromInitial(rs: seq<Word>)
    ensures Flatten(Replay(Initial, rs)) == Content(rs)
    ensures |Replay(Initial, rs)| == 1 + Sentinels(rs)
    ensures NoBreakStored(Replay(Initial, rs))
  {
    ReplayFlatten(Initial, rs);
    assert Flatten(Initial) == [] by { FlattenSnoc([], []); }
    ReplayParagraphs(Initial, rs);
    ReplayNoBreak(Initial, rs);
  }

  /** Three results "a", the sentinel, "b" give the paragraphs ["a"] and ["b"]. */
  lemma ThreeResults(d0: real, d1: real, d2: real)
    ensures Replay(Initial, [Word(0, "a", d0), Word(1, Break, d1), Word(2, "b", d2)])
         == [[Word(0, "a", d0)], [Word(2, "b", d2)]]
  {
    var a, s, b := Word(0, "a", d0), Word(1, Break, d1), Word(2, "b", d2);
    assert !IsBreak(a) && IsBreak(s) && !IsBreak(b);
    var t1 := AddWord(Initial, a);
    assert t1 == [[a]] by { assert Initial[..0] == [] && [] + [a] == [a]; }
    var t2 := AddWord(t1, s);
    assert t2 == [[a], []];
    var t3 := AddWord(t2, b);
    assert t3 == [[a], [b]] by { assert t2[..1] == [[a]] && [] + [b] == [b]; }
    assert [] + [a] == [a] && [a] + [s] == [a, s] && [a, s] + [b] == [a, s, b];
    ReplaySnoc(Initial, [], a);
    ReplaySnoc(Initial, [a], s);
    ReplaySnoc(Initial, [a, s], b);
  }
}
