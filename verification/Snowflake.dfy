/**
 The snowflake id generator (im-common/src/ids.rs): a retry loop around one compare-and-exchange of a word
 that packs a millisecond time over a 12-bit sequence. Words and ids are 64-bit, so a shift drops the bits
 that leave the word.
 */
module Snowflake {
  import opened Options

  const SEQUENCES := 4096
  const NODES := 1024
  const WORDS := 0x1_0000_0000_0000_0000
  const TIMES := 0x200_0000_0000
  const ID_LIMIT := 0x8000_0000_0000_0000

  // ---------- one attempt ----------

  function MsOf(word: nat): nat {
    word / SEQUENCES
  }

  function SeqOf(word: nat): nat {
    word % SEQUENCES
  }

  /** `(ms << 12) | seq` in 64 bits. */
  function Pack(ms: nat, sequence: nat): nat
    requires sequence < SEQUENCES
  {
    ms * SEQUENCES % WORDS + sequence
  }

  /** One past the current word, or the clock if that is further, in 64 bits. */
  function NextWord(current: nat, now: nat): nat {
    Max(current + 1, now * SEQUENCES) % WORDS
  }

  /** The id for a node: 41 bits of time, 10 of node, 12 of sequence. */
  function IdOf(ms: nat, node: nat, sequence: nat): nat
    requires node < NODES && sequence < SEQUENCES
  {
    ms % TIMES * (NODES * SEQUENCES) + node * SEQUENCES + sequence
  }

  function IdOfWord(word: nat, node: nat): nat
    requires node < NODES
  {
    IdOf(MsOf(word), node, SeqOf(word))
  }

  const PACKED_TIMES := 0x10_0000_0000_0000

  lemma PackedParts(ms: nat, sequence: nat)
    requires sequence < SEQUENCES
    ensures MsOf(Pack(ms, sequence)) == ms % PACKED_TIMES && SeqOf(Pack(ms, sequence)) == sequence
  {
    var wraps, kept := ms / PACKED_TIMES, ms % PACKED_TIMES;
    assert ms * SEQUENCES == wraps * WORDS + kept * SEQUENCES;
    RemainderInWord(wraps, kept * SEQUENCES);
  }

  lemma LowTimeBits(ms: nat)
    ensures ms % PACKED_TIMES % TIMES == ms % TIMES
  {
    var wraps, kept := ms / PACKED_TIMES, ms % PACKED_TIMES;
    var high, low := kept / TIMES, kept % TIMES;
    assert ms == (wraps * 2048 + high) * TIMES + low;
  }

  /** The bits that packing drops are bits the id does not use. */
  lemma PackedPartsSuffice(ms: nat, node: nat, sequence: nat)
    requires node < NODES && sequence < SEQUENCES
    ensures IdOfWord(Pack(ms, sequence), node) == IdOf(ms, node, sequence)
  {
    PackedParts(ms, sequence);
    LowTimeBits(ms);
  }

  /** The masks, shifts and ors of the source are this arithmetic: the fields do not overlap. */
  lemma PackingBits(ms: bv64, sequence: bv64)
    requires sequence < 4096
    ensures (ms << 12) | sequence == (ms << 12) + sequence
    ensures ((ms << 12) | sequence) & 0x0fff == sequence
    ensures ms < 0x10_0000_0000_0000 ==> ((ms << 12) | sequence) >> 12 == ms
  {
  }

  lemma IdBits(ms: bv64, node: bv64, sequence: bv64)
    requires sequence < 4096 && node < 1024
    ensures (((ms & 0x1ff_ffff_ffff) << 22) | (node << 12)) | sequence
      == ((ms & 0x1ff_ffff_ffff) << 22) + (node << 12) + sequence
    ensures ((((ms & 0x1ff_ffff_ffff) << 22) | (node << 12)) | sequence) < 0x8000_0000_0000_0000
  {
  }

  lemma RemainderInWord(wraps: nat, rest: nat)
    requires rest < WORDS
    ensures (wraps * WORDS + rest) % WORDS == rest
  {
  }

  /** A time and sequence whose value is the next word pack to it, also where the shift drops bits. */
  lemma PackIsNextWord(ms: nat, sequence: nat, current: nat, now: nat)
    requires sequence < SEQUENCES && ms * SEQUENCES + sequence == Max(current + 1, now * SEQUENCES)
    ensures Pack(ms, sequence) == NextWord(current, now)
  {
    var wraps, kept := ms / PACKED_TIMES, ms % PACKED_TIMES;
    assert ms * SEQUENCES == wraps * WORDS + kept * SEQUENCES;
    RemainderInWord(wraps, kept * SEQUENCES);
    RemainderInWord(wraps, kept * SEQUENCES + sequence);
  }

  /** Every id fits the 63 bits of a positive `i64`: the conversion at the end of the loop cannot fail. */
  lemma IdFits(ms: nat, node: nat, sequence: nat)
    requires node < NODES && sequence < SEQUENCES
    ensures IdOf(ms, node, sequence) < ID_LIMIT
  {
  }

  function DecodeId(id: nat): (nat, nat, nat) {
    (id / (NODES * SEQUENCES), id / SEQUENCES % NODES, id % SEQUENCES)
  }

  lemma IdDecodes(ms: nat, node: nat, sequence: nat)
    requires node < NODES && sequence < SEQUENCES
    ensures DecodeId(IdOf(ms, node, sequence)) == (ms % TIMES, node, sequence)
  {
    var high := ms % TIMES;
    var id := IdOf(ms, node, sequence);
    assert id == (high * NODES + node) * SEQUENCES + sequence;
    assert id / SEQUENCES == high * NODES + node;
  }

  /** Ids tell apart exactly the packed times below 2^41: two ids agree when their parts do, modulo that bound. */
  lemma IdsEqualIff(ms: nat, node: nat, sequence: nat, ms': nat, node': nat, sequence': nat)
    requires node < NODES && sequence < SEQUENCES && node' < NODES && sequence' < SEQUENCES
    ensures IdOf(ms, node, sequence) == IdOf(ms', node', sequence')
      <==> ms % TIMES == ms' % TIMES && node == node' && sequence == sequence'
  {
  }

  /** For one node and times below 2^41, ids are ordered as the packed words are. */
  lemma IdsRiseWithWords(word: nat, word': nat, node: nat)
    requires node < NODES && word < word' < TIMES * SEQUENCES
    ensures IdOf(MsOf(word), node, SeqOf(word)) < IdOf(MsOf(word'), node, SeqOf(word'))
  {
  }

  // ---------- any number of threads ----------

  /** A thread between its load and its exchange. */
  datatype Thread = Ready | Computed(current: nat, now: nat)

  /** `words` is every value the word has had, oldest first; the last one is its value now. */
  datatype State = State(words: seq<nat>, threads: map<nat, Thread>)

  datatype Action =
    | Load(thread: nat, seen: nat, now: nat)
    | Exchange(thread: nat)
    | Fail(thread: nat)

  /** The load is relaxed, so it may return any value the word has had. */
  ghost predicate StepBy(s: State, s': State, action: Action) {
    match action
    case Load(t, seen, now) =>
      && seen < |s.words|
      && s' == s.(threads := s.threads[t := Computed(s.words[seen], now)])
    case Exchange(t) =>
      && t in s.threads && s.threads[t].Computed?
      && s.words != [] && s.threads[t].current == s.words[|s.words| - 1]
      && s' == State(s.words + [NextWord(s.threads[t].current, s.threads[t].now)], s.threads[t := Ready])
    case Fail(t) =>
      && t in s.threads && s.threads[t].Computed?
      && s.words != [] && s.threads[t].current != s.words[|s.words| - 1]
      && s' == s.(threads := s.threads[t := Ready])
  }

  ghost predicate Step(s: State, s': State) {
    exists action: Action :: StepBy(s, s', action)
  }

  function Nth(run: seq<State>, k: nat): State
    requires k < |run|
  {
    run[k]
  }

  ghost predicate IsRun(run: seq<State>) {
    && run != []
    && run[0] == State([0], map[])
    && forall k: nat {:trigger Nth(run, k)} :: k < |run| - 1 ==> Step(Nth(run, k), Nth(run, k + 1))
  }

  /** The clocks read are never past `latest`. */
  ghost predicate ClocksUpTo(s: State, latest: nat) {
    forall t :: t in s.threads && s.threads[t].Computed? ==> s.threads[t].now <= latest
  }

  ghost predicate RunClocksUpTo(run: seq<State>, latest: nat) {
    forall k: nat {:trigger Nth(run, k)} :: k < |run| ==> ClocksUpTo(Nth(run, k), latest)
  }

  ghost predicate Follows(word: nat, next: nat, latest: nat) {
    exists now: nat :: now <= latest && next == NextWord(word, now)
  }

  /** Each word was computed from the one before it, whatever its thread had loaded and when. */
  ghost predicate Chained(words: seq<nat>, latest: nat) {
    && words != []
    && words[0] == 0
    && forall k :: 0 < k < |words| ==> Follows(words[k - 1], words[k], latest)
  }

  ghost predicate Rising(words: seq<nat>) {
    forall i, j :: 0 <= i < j < |words| ==> words[i] < words[j]
  }

  /** After n exchanges with clocks up to `latest`, the word is at most 4096 * latest + n. */
  ghost predicate Bounded(words: seq<nat>, latest: nat) {
    forall k :: 0 <= k < |words| ==> words[k] <= latest * SEQUENCES + k
  }

  lemma StepKeepsChain(s: State, s': State, latest: nat)
    requires Step(s, s') && ClocksUpTo(s, latest) && Chained(s.words, latest)
    ensures Chained(s'.words, latest)
  {
  }

  lemma {:induction false} WordsAreChained(run: seq<State>, latest: nat, k: nat)
    requires IsRun(run) && k < |run| && RunClocksUpTo(run, latest)
    ensures Chained(run[k].words, latest)
  {
    if k > 0 {
      WordsAreChained(run, latest, k - 1);
      assert ClocksUpTo(Nth(run, k - 1), latest);
      assert Step(Nth(run, k - 1), Nth(run, k - 1 + 1));
      StepKeepsChain(run[k - 1], run[k], latest);
    }
  }

  lemma FollowingRises(word: nat, next: nat, latest: nat, n: nat)
    requires Follows(word, next, latest)
    requires word <= latest * SEQUENCES + n && latest * SEQUENCES + n + 1 < WORDS
    ensures word < next <= latest * SEQUENCES + n + 1
  {
    var now: nat :| now <= latest && next == NextWord(word, now);
    assert now * SEQUENCES <= latest * SEQUENCES;
    RemainderInWord(0, Max(word + 1, now * SEQUENCES));
  }

  /** The bound on the number of words is where a 64-bit word would wrap. */
  lemma {:induction false} ChainRisesTo(words: seq<nat>, latest: nat, k: nat)
    requires Chained(words, latest) && latest * SEQUENCES + |words| <= WORDS && k < |words|
    ensures words[k] <= latest * SEQUENCES + k && forall i :: 0 <= i < k ==> words[i] < words[k]
  {
    if k > 0 {
      ChainRisesTo(words, latest, k - 1);
      FollowingRises(words[k - 1], words[k], latest, k - 1);
    }
  }

  lemma ChainRises(words: seq<nat>, latest: nat)
    requires Chained(words, latest) && latest * SEQUENCES + |words| <= WORDS
    ensures Rising(words) && Bounded(words, latest)
  {
    forall k: nat | k < |words|
      ensures words[k] <= latest * SEQUENCES + k && forall i :: 0 <= i < k ==> words[i] < words[k]
    {
      ChainRisesTo(words, latest, k);
    }
  }

  /**
   Under every interleaving of loads and exchanges, stale loads included, the words only rise, and after n
   ids the packed time is ahead of the clocks by no more than n sequence numbers.
   */
  lemma WordsRise(run: seq<State>, latest: nat, k: nat)
    requires IsRun(run) && k < |run| && RunClocksUpTo(run, latest)
    requires latest * SEQUENCES + |run[k].words| <= WORDS
    ensures Rising(run[k].words) && Bounded(run[k].words, latest)
  {
    WordsAreChained(run, latest, k);
    ChainRises(run[k].words, latest);
  }

  /** Two different exchanges never issue the same (ms, seq), whichever nodes ask for them. */
  lemma IssuedPairsDiffer(run: seq<State>, latest: nat, k: nat, i: nat, j: nat)
    requires IsRun(run) && k < |run| && RunClocksUpTo(run, latest)
    requires latest * SEQUENCES + |run[k].words| <= WORDS
    requires 0 < i < j < |run[k].words|
    ensures var a, b := run[k].words[i], run[k].words[j];
      MsOf(a) < MsOf(b) || (MsOf(a) == MsOf(b) && SeqOf(a) < SeqOf(b))
  {
    WordsRise(run, latest, k);
    var a, b := run[k].words[i], run[k].words[j];
    assert a == MsOf(a) * SEQUENCES + SeqOf(a) && b == MsOf(b) * SEQUENCES + SeqOf(b);
  }

  /** While the packed time is below 2^41, ids of one process are distinct, and rise for each node. */
  lemma IssuedIdsDiffer(run: seq<State>, latest: nat, k: nat, i: nat, j: nat, node: nat, node': nat)
    requires IsRun(run) && k < |run| && RunClocksUpTo(run, latest)
    requires latest * SEQUENCES + |run[k].words| <= TIMES * SEQUENCES
    requires 0 < i < j < |run[k].words| && node < NODES && node' < NODES
    ensures var a, b := run[k].words[i], run[k].words[j];
      && IdOfWord(a, node) != IdOfWord(b, node')
      && IdOfWord(a, node) < IdOfWord(b, node)
  {
    WordsRise(run, latest, k);
    var a, b := run[k].words[i], run[k].words[j];
    IssuedPairsDiffer(run, latest, k, i, j);
    IdsRiseWithWords(a, b, node);
    IdsEqualIff(MsOf(a), node, SeqOf(a), MsOf(b), node', SeqOf(b));
    assert MsOf(a) < TIMES && MsOf(b) < TIMES;
  }

  /** No thread installs a time before the clock it read. */
  lemma IssuedNotBeforeClock(run: seq<State>, latest: nat, k: nat, t: nat)
    requires IsRun(run) && k + 1 < |run| && RunClocksUpTo(run, latest)
    requires latest * SEQUENCES + |run[k].words| < WORDS
    requires StepBy(run[k], run[k + 1], Exchange(t))
    ensures |run[k + 1].words| == |run[k].words| + 1
    ensures MsOf(run[k + 1].words[|run[k].words|]) >= run[k].threads[t].now
    ensures run[k + 1].words[|run[k].words|] >= run[k].words[|run[k].words| - 1] + 1
  {
    WordsRise(run, latest, k);
    var prev, now := run[k].words[|run[k].words| - 1], run[k].threads[t].now;
    assert ClocksUpTo(Nth(run, k), latest);
    assert now * SEQUENCES <= latest * SEQUENCES;
    RemainderInWord(0, Max(prev + 1, now * SEQUENCES));
  }

  lemma WordsChangeByExchange(s: State, s': State) returns (thread: nat)
    requires Step(s, s') && s'.words != s.words
    ensures StepBy(s, s', Exchange(thread)) && thread in s'.threads && s'.threads[thread].Ready?
  {
    var action: Action :| StepBy(s, s', action);
    thread := action.thread;
  }

  /** A thread keeps what it computed from its load up to its exchange. */
  ghost predicate Waits(run: seq<State>, from: nat, to: nat, t: nat, computed: Thread)
    requires to < |run|
  {
    forall k: nat {:trigger Nth(run, k)} :: from <= k <= to ==> t in Nth(run, k).threads && Nth(run, k).threads[t] == computed
  }

  lemma {:induction false} SomeoneExchanged(run: seq<State>, from: nat, to: nat, t: nat, computed: Thread) returns (k: nat, other: nat)
    requires IsRun(run) && from <= to < |run| && Waits(run, from, to, t, computed) && computed.Computed?
    requires run[from].words != run[to].words
    ensures from <= k < to && other != t && StepBy(run[k], run[k + 1], Exchange(other))
  {
    assert Step(Nth(run, to - 1), Nth(run, to - 1 + 1));
    if run[to - 1].words != run[to].words {
      other := WordsChangeByExchange(run[to - 1], run[to]);
      k := to - 1;
      assert Nth(run, to).threads[t] == computed;
    } else {
      k, other := SomeoneExchanged(run, from, to - 1, t, computed);
    }
  }

  /**
   An exchange that fails means that another thread's has succeeded: since the value that was loaded was
   installed, and since the load itself when that was not stale.
   */
  lemma FailureMeansProgress(run: seq<State>, from: nat, to: nat, t: nat, seen: nat, now: nat)
    requires IsRun(run) && from < to && to + 1 < |run|
    requires StepBy(run[from], run[from + 1], Load(t, seen, now)) && StepBy(run[to], run[to + 1], Fail(t))
    requires Waits(run, from + 1, to, t, Computed(run[from].words[seen], now))
    ensures seen < |run[to].words| - 1
    ensures seen == |run[from].words| - 1 ==>
      exists k: nat, other: nat :: from < k < to && other != t && StepBy(run[k], run[k + 1], Exchange(other))
  {
    WordsGrow(run, from + 1, to);
    assert Nth(run, to).threads[t] == Computed(run[from].words[seen], now);
    if seen == |run[from].words| - 1 {
      var k, other := SomeoneExchanged(run, from + 1, to, t, Computed(run[from].words[seen], now));
    }
  }

  lemma {:induction false} WordsGrow(run: seq<State>, from: nat, to: nat)
    requires IsRun(run) && from <= to < |run|
    ensures run[from].words <= run[to].words
  {
    if from < to {
      WordsGrow(run, from, to - 1);
      assert Step(Nth(run, to - 1), Nth(run, to - 1 + 1));
    }
  }

  // ---------- the code ----------

  /**
   What one attempt meets: how many values behind its load is, the clock it reads, and the clocks of the ids
   that other threads obtain before its exchange.
   */
  datatype Turn = Turn(stale: nat, now: int, others: seq<nat>)

  ghost predicate TurnUpTo(turn: Turn, latest: nat) {
    turn.now <= latest && forall i :: 0 <= i < |turn.others| ==> turn.others[i] <= latest
  }

  /**
   The turn in which the last word was installed: that is one past the word it replaced, or the clock that the
   turn read, if that is further; and each turn before it was stale or overtaken.
   */
  ghost predicate IssuedIn(turns: seq<Turn>, i: nat, words: seq<nat>) {
    && i < |turns| && |words| >= 2
    && words[|words| - 1] == Max(words[|words| - 2] + 1, Max(turns[i].now, 0) * 4096) % 0x1_0000_0000_0000_0000
    && forall j :: 0 <= j < i ==> turns[j].stale > 0 || turns[j].others != []
  }

  /** 41 bits of time, 10 bits of node and 12 of sequence, in these places. */
  predicate PartsOf(id: nat, word: nat, node: nat) {
    id / 0x40_0000 == word / 4096 % 0x200_0000_0000 && id / 4096 % 1024 == node && id % 4096 == word % 4096
  }

  lemma IdHasParts(word: nat, node: nat)
    requires node < NODES
    ensures PartsOf(IdOfWord(word, node), word, node)
  {
    IdDecodes(MsOf(word), node, SeqOf(word));
  }

  /** Until the word wraps, the time in an id is never before the clock that was read for it. */
  lemma IdNotBeforeClock(word: nat, prev: nat, now: nat, node: nat)
    requires word == Max(prev + 1, now * 4096) % 0x1_0000_0000_0000_0000
    requires prev + 1 < 0x200_0000_0000 * 4096 && now < 0x200_0000_0000 && node < NODES
    ensures DecodeId(IdOfWord(word, node)).0 >= now && DecodeId(IdOfWord(word, node)).1 == node
    ensures now * 4096 > prev ==> DecodeId(IdOfWord(word, node)) == (now, node, 0)
  {
    RemainderInWord(0, Max(prev + 1, now * 4096));
    IdDecodes(MsOf(word), node, SeqOf(word));
    assert MsOf(word) < TIMES;
  }

  /** The shared word, as the list of the values it has had. */
  class Generator {
    var words: seq<nat>
    ghost const latest: nat

    ghost predicate Valid()
      reads this
    {
      Chained(words, latest)
    }

    constructor (ghost latest: nat)
      ensures Valid() && words == [0] && this.latest == latest
    {
      words := [0];
      this.latest := latest;
    }

    /** A relaxed load: the value now, or one that many behind. */
    method Load(stale: nat) returns (current: nat)
      requires Valid()
      ensures current in words && (stale == 0 ==> current == words[|words| - 1])
    {
      current := words[if stale < |words| then |words| - 1 - stale else 0];
    }

    method CompareExchange(current: nat, next: nat) returns (ok: bool)
      requires Valid() && Follows(current, next, latest)
      modifies this
      ensures Valid() && ok == (old(words)[|old(words)| - 1] == current)
      ensures words == if ok then old(words) + [next] else old(words)
    {
      ok := words[|words| - 1] == current;
      if ok {
        words := words + [next];
      }
    }

    method OtherThreads(clocks: seq<nat>)
      requires Valid() && forall i :: 0 <= i < |clocks| ==> clocks[i] <= latest
      modifies this
      ensures Valid() && |words| == |old(words)| + |clocks| && old(words) <= words
    {
      for i := 0 to |clocks|
        invariant Valid() && |words| == |old(words)| + i && old(words) <= words
      {
        var last := words[|words| - 1];
        var ok := CompareExchange(last, NextWord(last, clocks[i]));
      }
    }

    /** The three branches: together they are the next value of the word, time over sequence. */
    method ChooseParts(current: nat, now: nat) returns (ms: nat, sequence: nat)
      ensures sequence < SEQUENCES && ms * SEQUENCES + sequence == Max(current + 1, now * SEQUENCES)
    {
      var lastMs, lastSeq := current / SEQUENCES, current % SEQUENCES;
      if now > lastMs {
        ms, sequence := now, 0;
      } else if lastSeq < SEQUENCES - 1 {
        ms, sequence := lastMs, lastSeq + 1;
      } else {
        ms, sequence := lastMs + 1, 0;
      }
    }

    /**
     `next_id`, retried for as many turns as it is given. The id is that of the word it has just installed,
     and it gives up only in turns where its load was stale or another thread got an id in between.
     */
    method NextId(nodeId: nat, turns: seq<Turn>) returns (id: Option<nat>)
      requires Valid() && forall i :: 0 <= i < |turns| ==> TurnUpTo(turns[i], latest)
      modifies this
      ensures Valid() && old(words) <= words
      ensures id.Some? ==> |old(words)| < |words| && id.value == IdOfWord(words[|words| - 1], nodeId % NODES) < ID_LIMIT
      ensures id.Some? ==> PartsOf(id.value, words[|words| - 1], nodeId % 1024)
      ensures id.Some? ==> exists i: nat :: IssuedIn(turns, i, words)
      ensures id.None? ==> forall i :: 0 <= i < |turns| ==> turns[i].stale > 0 || turns[i].others != []
    {
      var node := nodeId % NODES;
      for i := 0 to |turns|
        invariant Valid() && old(words) <= words
        invariant forall j :: 0 <= j < i ==> turns[j].stale > 0 || turns[j].others != []
      {
        assert TurnUpTo(turns[i], latest);
        var now: nat := Max(turns[i].now, 0);
        var current := Load(turns[i].stale);
        var ms, sequence := ChooseParts(current, now);
        var next := Pack(ms, sequence);
        PackIsNextWord(ms, sequence, current, now);
        assert Follows(current, next, latest);
        OtherThreads(turns[i].others);
        ghost var before := words;
        var ok := CompareExchange(current, next);
        if ok {
          assert words == before + [next] && before[|before| - 1] == current;
          IdFits(ms, node, sequence);
          PackedPartsSuffice(ms, node, sequence);
          IdHasParts(next, node);
          assert IssuedIn(turns, i, words);
          return Some(IdOf(ms, node, sequence));
        }
      }
      return None;
    }
  }
}
