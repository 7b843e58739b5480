/**
  The page component: the word count, the transcript and the run status it
  keeps, and the sequential pipeline that fetches words 0..count-1 one at a
  time and folds each result into the transcript before asking for the next.
  The words endpoint is a sequence of responses: response i is what the
  server answers for index i.
 */
module Reader {
  import opened Transcripts
  import opened RunStatus

  /** What the words endpoint answers for one index, with the measured round trip. */
  datatype Response = Response(word: string, duration: real)

  /** What the pipeline does, in order: ask for an index, or fold its result in. */
  datatype Event = Requested(index: nat) | Folded(index: nat)

  /** The result the pipeline builds for index `i`. */
  function FetchWord(responses: seq<Response>, i: nat): (w: Word)
    requires i < |responses|
    ensures w.index == i
    ensures IsBreak(w) <==> responses[i].word == Break
  {
    Word(i, responses[i].word, responses[i].duration)
  }

  /** The results for indices 0..n-1, in that order. */
  function Fetched(responses: seq<Response>, n: nat): (r: seq<Word>)
    requires n <= |responses|
    ensures |r| == n
    ensures forall k :: 0 <= k < n ==> r[k] == FetchWord(responses, k)
  {
    if n == 0 then [] else Fetched(responses, n - 1) + [FetchWord(responses, n - 1)]
  }

  /** The order of events of a run over `n` indices. */
  function Schedule(n: nat): seq<Event> {
    if n == 0 then [] else Schedule(n - 1) + [Requested(n - 1), Folded(n - 1)]
  }

  /**
    A run asks for every index below `n` exactly once, in ascending order, and
    folds each result in before it asks for the next index.
   */
  lemma {:induction false} ScheduleIsSequential(n: nat)
    ensures |Schedule(n)| == 2 * n
    ensures forall p :: 0 <= p < 2 * n ==>
      Schedule(n)[p] == if p % 2 == 0 then Requested(p / 2) else Folded(p / 2)
  {
    if n > 0 {
      ScheduleIsSequential(n - 1);
    }
  }

  /** Among the results of a run, one has reached the last index exactly when the run was not empty. */
  lemma LastIndexReached(responses: seq<Response>, n: nat)
    requires n <= |responses|
    ensures (exists w :: w in Fetched(responses, n) && n <= w.index + 1) <==> n > 0
  {
    if n > 0 {
      assert Fetched(responses, n)[n - 1].index == n - 1;
    }
  }

  /** One more step of the loop in `App.Start` extends its history and its log by index `i`. */
  lemma RunStep(h: seq<Word>, responses: seq<Response>, i: nat)
    requires i < |responses|
    ensures h + Fetched(responses, i) + [FetchWord(responses, i)] == h + Fetched(responses, i + 1)
    ensures Schedule(i) + [Requested(i)] + [Folded(i)] == Schedule(i + 1)
  {
    assert [Requested(i)] + [Folded(i)] == [Requested(i), Folded(i)];
  }

  /**
    After a run from the initial transcript over `n` indices, the stored words
    number `n` less the sentinels among the results, and the paragraphs one more
    than those sentinels.
   */
  lemma RunWordCount(responses: seq<Response>, n: nat)
    requires n <= |responses|
    ensures |Flatten(Replay(Initial, Fetched(responses, n)))| == n - Sentinels(Fetched(responses, n))
    ensures |Flatten(Replay(Initial, Fetched(responses, n)))| + |Replay(Initial, Fetched(responses, n))| - 1 == n
  {
    FromInitial(Fetched(responses, n));
    ContentAndSentinels(Fetched(responses, n));
  }

  class App {
    /** The number of words, as the count endpoint reported it. */
    var count: nat
    /** The transcript shown on the page. */
    var words: Transcript
    var status: Status
    /** Every result folded in so far, oldest first. */
    ghost var history: seq<Word>

    /**
      The transcript is the fold of every result so far, from the initial one,
      and nothing has been folded while the page is ready.
     */
    ghost predicate Valid()
      reads this
    {
      && words == Replay(Initial, history)
      && (status == Ready ==> history == [])
    }

    /** The page as first rendered: no count yet, one empty paragraph, ready. */
    constructor ()
      ensures Valid()
      ensures count == 0 && words == Initial && status == Ready && history == []
    {
      count := 0;
      words := Initial;
      status := Ready;
      history := [];
    }

    /** The count endpoint has answered. */
    method LoadCount(c: nat)
      modifies this`count
      ensures count == c
    {
      count := c;
    }

    /** Handles one fetched result: the status check against the count, then the transcript update. */
    method UpdateWords(w: Word)
      requires Valid() && status != Ready
      modifies this`words, this`status, this`history
      ensures Valid()
      ensures history == old(history) + [w]
      ensures words == AddWord(old(words), w)
      ensures status == AfterResult(old(status), w.index, count)
    {
      ReplaySnoc(Initial, history, w);
      status := AfterResult(status, w.index, count);
      words := AddWord(words, w);
      history := history + [w];
    }

    /**
      The start handler: status becomes processing, then indices 0..count-1
      are fetched and handled one after another. The transcript is not reset.
     */
    method Start(responses: seq<Response>) returns (ghost log: seq<Event>)
      requires Valid() && count <= |responses|
      modifies this`words, this`status, this`history
      ensures Valid()
      ensures log == Schedule(count)
      ensures history == old(history) + Fetched(responses, count)
      ensures words == Replay(old(words), Fetched(responses, count))
      ensures Flatten(words) == Content(history)
      ensures |words| == 1 + Sentinels(history)
      ensures status == Complete <==> exists w :: w in Fetched(responses, count) && count <= w.index + 1
      ensures status == if count == 0 then Processing else Complete
    {
      status := Processing;
      log := [];
      var i := 0;
      while i < count
        invariant i <= count
        invariant Valid()
        invariant log == Schedule(i)
        invariant history == old(history) + Fetched(responses, i)
        invariant words == Replay(old(words), Fetched(responses, i))
        invariant status == if 0 < i == count then Complete else Processing
      {
        log := log + [Requested(i)];
        var w := FetchWord(responses, i);
        ReplaySnoc(old(words), Fetched(responses, i), w);
        UpdateWords(w);
        log := log + [Folded(i)];
        RunStep(old(history), responses, i);
        i := i + 1;
      }
      LastIndexReached(responses, count);
      FromInitial(history);
    }

    /** A click on the start button, which is disabled unless the page is ready. */
    method Click(responses: seq<Response>) returns (ghost log: seq<Event>)
      requires Valid()
      requires ButtonEnabled(status) ==> count <= |responses|
      modifies this`words, this`status, this`history
      ensures Valid()
      ensures Flatten(words) == Content(history)
      ensures |words| == 1 + Sentinels(history)
      ensures NoBreakStored(words)
      ensures Rank(old(status)) <= Rank(status)
      ensures !ButtonEnabled(status)
      ensures !ButtonEnabled(old(status)) ==> log == [] && unchanged(this)
      ensures ButtonEnabled(old(status)) ==>
        && log == Schedule(count)
        && history == Fetched(responses, count)
        && words == Replay(Initial, Fetched(responses, count))
        && status == if count == 0 then Processing else Complete
    {
      if ButtonEnabled(status) {
        log := Start(responses);
      } else {
        log := [];
      }
      FromInitial(history);
    }
  }

  /** Count 3 and the words "a", the sentinel, "b": two paragraphs, and the run completes. */
  method ThreeWordRun(d0: real, d1: real, d2: real) returns (app: App)
    ensures app.words == [[Word(0, "a", d0)], [Word(2, "b", d2)]]
    ensures app.status == Complete
  {
    app := new App();
    app.LoadCount(3);
    var responses := [Response("a", d0), Response(Break, d1), Response("b", d2)];
    ghost var log := app.Click(responses);
    assert Fetched(responses, 3) == [Word(0, "a", d0), Word(1, Break, d1), Word(2, "b", d2)];
    ThreeResults(d0, d1, d2);
  }

  /** With count 0 nothing is fetched and the run never leaves processing. */
  method EmptyRun() returns (app: App)
    ensures app.words == Initial
    ensures app.status == Processing
  {
    app := new App();
    ghost var log := app.Click([]);
  }
}
