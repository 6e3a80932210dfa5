/** DTMF decoding after the block classifier: anti-bounce over the keys of successive blocks. */
module Dtmf {
  import opened Basics

  type Key = char

  datatype Debounce = Debounce(lastKey: Option<Key>, count: nat, lastValidated: Option<Key>)

  const IDLE := Debounce(None, 0, None)

  /** One block: the new state and the key it validates, if any. */
  function Feed(s: Debounce, key: Option<Key>, minConsecutive: int): (Debounce, seq<Key>) {
    if key.Some? then
      var count := if key == s.lastKey then s.count + 1 else 1;
      if count >= minConsecutive && key != s.lastValidated
      then (Debounce(key, count, key), [key.value])
      else (Debounce(key, count, s.lastValidated), [])
    else if s.count > 0 then (IDLE, [])
    else (s, [])
  }

  /** All blocks of a stream, in order. */
  function Decode(s: Debounce, keys: seq<Option<Key>>, minConsecutive: int): (Debounce, seq<Key>) {
    if keys == [] then (s, [])
    else
      var before := Decode(s, keys[..|keys| - 1], minConsecutive);
      var last := Feed(before.0, keys[|keys| - 1], minConsecutive);
      (last.0, before.1 + last.1)
  }

  // ----- the decoder object -----

  /** The classifier's answers for the complete blocks of a buffer; a shorter rest is not looked at. */
  function BlockKeys(samples: seq<int>, blockSize: nat, classify: seq<int> -> Option<Key>): seq<Option<Key>>
    requires blockSize > 0
  {
    if |samples| < blockSize then []
    else [classify(samples[..blockSize])] + BlockKeys(samples[blockSize..], blockSize, classify)
  }

  /** The blocks are the buffer cut from its start into pieces of the block size, as many as are complete. */
  lemma {:induction false} BlocksAre(samples: seq<int>, blockSize: nat, classify: seq<int> -> Option<Key>)
    requires blockSize > 0
    ensures var keys := BlockKeys(samples, blockSize, classify);
            && |keys| * blockSize <= |samples| < |keys| * blockSize + blockSize
            && forall i: nat | i < |keys| :: BlockIs(samples, blockSize, classify, keys, i)
  {
    if |samples| >= blockSize {
      var rest := samples[blockSize..];
      var keys, later := BlockKeys(samples, blockSize, classify), BlockKeys(rest, blockSize, classify);
      BlocksAre(rest, blockSize, classify);
      assert |keys| * blockSize == |later| * blockSize + blockSize;
      forall i: nat | i < |keys| ensures BlockIs(samples, blockSize, classify, keys, i) {
        if i > 0 {
          assert BlockIs(rest, blockSize, classify, later, i - 1);
          BlockShifts(samples, blockSize, classify, keys, later, i);
        }
      }
    }
  }

  ghost predicate BlockIs(samples: seq<int>, blockSize: nat, classify: seq<int> -> Option<Key>, keys: seq<Option<Key>>, i: nat)
  {
    && i < |keys| && 0 <= i * blockSize <= i * blockSize + blockSize <= |samples|
    && keys[i] == classify(samples[i * blockSize..i * blockSize + blockSize])
  }

  lemma BlockShifts(samples: seq<int>, blockSize: nat, classify: seq<int> -> Option<Key>, keys: seq<Option<Key>>,
                    later: seq<Option<Key>>, i: nat)
    requires 0 < i < |keys| && |keys| == |later| + 1 && keys[i] == later[i - 1] && blockSize <= |samples|
    requires BlockIs(samples[blockSize..], blockSize, classify, later, i - 1)
    ensures BlockIs(samples, blockSize, classify, keys, i)
  {
    var from := (i - 1) * blockSize;
    assert i * blockSize == from + blockSize;
    assert samples[blockSize..][from..from + blockSize] == samples[from + blockSize..from + blockSize + blockSize];
  }

  /** The buffer ends on a block boundary. */
  predicate WholeBlocks(samples: seq<int>, blockSize: nat)
    requires blockSize > 0
    decreases |samples|
  {
    |samples| == 0 || (|samples| >= blockSize && WholeBlocks(samples[blockSize..], blockSize))
  }

  class DtmfDecoder {
    const blockSize: nat
    const minConsecutive: int
    const classify: seq<int> -> Option<Key>
    var lastKey: Option<Key>
    var consecutiveCount: nat
    var lastValidated: Option<Key>

    constructor (blockSize: nat, minConsecutive: int, classify: seq<int> -> Option<Key>)
      requires blockSize > 0
      ensures Valid() && State() == IDLE
      ensures this.blockSize == blockSize && this.minConsecutive == minConsecutive && this.classify == classify
    {
      this.blockSize := blockSize;
      this.minConsecutive := minConsecutive;
      this.classify := classify;
      lastKey := None;
      consecutiveCount := 0;
      lastValidated := None;
    }

    predicate Valid() { blockSize > 0 }

    function State(): Debounce
      reads this
    {
      Debounce(lastKey, consecutiveCount, lastValidated)
    }

    method Reset()
      modifies this
      ensures State() == IDLE
    {
      lastKey := None;
      consecutiveCount := 0;
      lastValidated := None;
    }

    /** One block's key against the anti-bounce state. */
    method FeedBlock(key: Option<Key>) returns (validated: Option<Key>)
      modifies this
      ensures (State(), Sent(validated)) == Feed(old(State()), key, minConsecutive)
    {
      validated := None;
      if key != None {
        if key == lastKey {
          consecutiveCount := consecutiveCount + 1;
        } else {
          lastKey := key;
          consecutiveCount := 1;
        }
        if consecutiveCount >= minConsecutive {
          if key != lastValidated {
            lastValidated := key;
            validated := key;
          }
        }
      } else {
        if consecutiveCount > 0 {
          lastKey := None;
          consecutiveCount := 0;
          lastValidated := None;
        }
      }
    }

    /** The keys validated over the buffer, in order; the state carries on to the next buffer. */
    method DetectStream(samples: seq<int>) returns (events: seq<Key>)
      requires Valid()
      modifies this
      ensures (State(), events) == Decode(old(State()), BlockKeys(samples, blockSize, classify), minConsecutive)
      ensures old(State()) == IDLE ==> events == Pressed(BlockKeys(samples, blockSize, classify), minConsecutive)
    {
      events := [];
      var offset := 0;
      ghost var keys := [];
      while offset + blockSize <= |samples|
        invariant 0 <= offset <= |samples|
        invariant BlockKeys(samples, blockSize, classify) == keys + BlockKeys(samples[offset..], blockSize, classify)
        invariant (State(), events) == Decode(old(State()), keys, minConsecutive)
      {
        var block := samples[offset..offset + blockSize];
        var key := classify(block);
        DecodeOneMore(old(State()), keys, key, minConsecutive);
        OneMoreBlock(samples, offset, blockSize, classify, keys);
        var validated := FeedBlock(key);
        events := events + Sent(validated);
        keys := keys + [key];
        offset := offset + blockSize;
      }
      assert keys + [] == keys;
      DecodesPressedKeys(keys, minConsecutive);
    }

    /** The first key validated; the decoder stops there and ignores the rest of the buffer. */
    method Detect(samples: seq<int>) returns (found: Option<Key>)
      requires Valid()
      modifies this
      ensures var keys := BlockKeys(samples, blockSize, classify);
              if found.None? then Quiet(old(State()), keys, State(), minConsecutive)
              else exists n: nat :: ValidatesAt(old(State()), keys, n, State(), found.value, minConsecutive)
    {
      var offset := 0;
      ghost var all, start := BlockKeys(samples, blockSize, classify), State();
      ghost var keys := [];
      while offset + blockSize <= |samples|
        invariant 0 <= offset <= |samples|
        invariant Reached(all, keys, samples, offset, blockSize, classify)
        invariant Quiet(start, keys, State(), minConsecutive)
      {
        var block := samples[offset..offset + blockSize];
        var key := classify(block);
        ghost var was := State();
        found := FeedBlock(key);
        OneMoreKey(start, was, State(), found, all, keys, samples, offset, blockSize, classify, minConsecutive);
        if found != None {
          return;
        }
        keys := keys + [key];
        offset := offset + blockSize;
      }
      NoMoreKeys(all, keys, samples, offset, blockSize, classify);
      return None;
    }
  }

  /** No block validates anything. */
  ghost predicate Quiet(s: Debounce, keys: seq<Option<Key>>, after: Debounce, minConsecutive: int) {
    Decode(s, keys, minConsecutive) == (after, [])
  }

  lemma NoMoreKeys(all: seq<Option<Key>>, keys: seq<Option<Key>>, samples: seq<int>, offset: nat, blockSize: nat,
                   classify: seq<int> -> Option<Key>)
    requires blockSize > 0 && offset <= |samples| && Reached(all, keys, samples, offset, blockSize, classify)
    requires offset + blockSize > |samples|
    ensures all == keys
  {
    assert keys + [] == keys;
  }

  /** One turn of the loop. */
  lemma OneMoreKey(start: Debounce, was: Debounce, after: Debounce, found: Option<Key>, all: seq<Option<Key>>,
                   keys: seq<Option<Key>>, samples: seq<int>, offset: nat, blockSize: nat,
                   classify: seq<int> -> Option<Key>, minConsecutive: int)
    requires blockSize > 0 && offset + blockSize <= |samples| && Reached(all, keys, samples, offset, blockSize, classify)
    requires Quiet(start, keys, was, minConsecutive)
    requires Feed(was, classify(samples[offset..offset + blockSize]), minConsecutive) == (after, Sent(found))
    ensures var next := keys + [classify(samples[offset..offset + blockSize])];
            && Reached(all, next, samples, offset + blockSize, blockSize, classify)
            && (found.None? ==> Quiet(start, next, after, minConsecutive))
            && (found.Some? ==> ValidatesAt(start, all, |next|, after, found.value, minConsecutive))
  {
    var key := classify(samples[offset..offset + blockSize]);
    ReachedNext(all, keys, samples, offset, blockSize, classify);
    QuietThen(start, keys, key, was, after, found, minConsecutive);
    if found.Some? {
      PrefixValidates(start, all, keys + [key], after, found.value, minConsecutive);
    }
  }

  /** The keys of the blocks before the offset, out of all of them. */
  ghost predicate Reached(all: seq<Option<Key>>, keys: seq<Option<Key>>, samples: seq<int>, offset: nat, blockSize: nat,
                          classify: seq<int> -> Option<Key>)
    requires blockSize > 0 && offset <= |samples|
  {
    all == keys + BlockKeys(samples[offset..], blockSize, classify)
  }

  lemma ReachedNext(all: seq<Option<Key>>, keys: seq<Option<Key>>, samples: seq<int>, offset: nat, blockSize: nat,
                    classify: seq<int> -> Option<Key>)
    requires blockSize > 0 && offset + blockSize <= |samples| && Reached(all, keys, samples, offset, blockSize, classify)
    ensures var next := keys + [classify(samples[offset..offset + blockSize])];
            next <= all && Reached(all, next, samples, offset + blockSize, blockSize, classify)
  {
    OneMoreBlock(samples, offset, blockSize, classify, keys);
  }

  /** Block n is the first to validate a key, and the state is the one right after it. */
  ghost predicate ValidatesAt(s: Debounce, keys: seq<Option<Key>>, n: nat, after: Debounce, key: Key, minConsecutive: int) {
    && 0 < n <= |keys|
    && Decode(s, keys[..n - 1], minConsecutive).1 == []
    && Decode(s, keys[..n], minConsecutive) == (after, [key])
  }

  lemma QuietThen(s: Debounce, keys: seq<Option<Key>>, key: Option<Key>, was: Debounce, after: Debounce,
                  found: Option<Key>, minConsecutive: int)
    requires Quiet(s, keys, was, minConsecutive)
    requires Feed(was, key, minConsecutive) == (after, Sent(found))
    ensures Decode(s, keys + [key], minConsecutive) == (after, Sent(found))
    ensures (keys + [key])[..|keys|] == keys
    ensures found.Some? ==> ValidatesAt(s, keys + [key], |keys| + 1, after, found.value, minConsecutive)
  {
    DecodeOneMore(s, keys, key, minConsecutive);
    assert [] + Sent(found) == Sent(found);
    assert (keys + [key])[..|keys|] == keys && (keys + [key])[..|keys| + 1] == keys + [key];
  }

  lemma PrefixValidates(s: Debounce, all: seq<Option<Key>>, keys: seq<Option<Key>>, after: Debounce, key: Key,
                        minConsecutive: int)
    requires keys <= all && ValidatesAt(s, keys, |keys|, after, key, minConsecutive)
    ensures ValidatesAt(s, all, |keys|, after, key, minConsecutive)
  {
    assert all[..|keys|] == keys && keys[..|keys|] == keys && all[..|keys| - 1] == keys[..|keys| - 1];
  }

  function Sent(validated: Option<Key>): seq<Key> { if validated.Some? then [validated.value] else [] }

  lemma DecodeOneMore(s: Debounce, keys: seq<Option<Key>>, key: Option<Key>, minConsecutive: int)
    ensures var before := Decode(s, keys, minConsecutive);
            var last := Feed(before.0, key, minConsecutive);
            Decode(s, keys + [key], minConsecutive) == (last.0, before.1 + last.1)
  {
    assert (keys + [key])[..|keys|] == keys;
  }

  lemma OneMoreBlock(samples: seq<int>, offset: nat, blockSize: nat, classify: seq<int> -> Option<Key>,
                     keys: seq<Option<Key>>)
    requires blockSize > 0 && offset + blockSize <= |samples|
    ensures keys + BlockKeys(samples[offset..], blockSize, classify)
            == keys + [classify(samples[offset..offset + blockSize])]
               + BlockKeys(samples[offset + blockSize..], blockSize, classify)
  {
    var rest := samples[offset..];
    assert rest[..blockSize] == samples[offset..offset + blockSize];
    assert rest[blockSize..] == samples[offset + blockSize..];
  }

  // ----- cutting a stream -----

  lemma {:induction false} DecodeAppend(s: Debounce, a: seq<Option<Key>>, b: seq<Option<Key>>, minConsecutive: int)
    ensures var first := Decode(s, a, minConsecutive);
            var second := Decode(first.0, b, minConsecutive);
            Decode(s, a + b, minConsecutive) == (second.0, first.1 + second.1)
  {
    if b == [] {
      assert a + b == a;
      assert Decode(s, a, minConsecutive).1 + [] == Decode(s, a, minConsecutive).1;
    } else {
      var init, key := b[..|b| - 1], b[|b| - 1];
      DecodeAppend(s, a, init, minConsecutive);
      assert a + b == (a + init) + [key];
      DecodeOneMore(s, a + init, key, minConsecutive);
      assert b == init + [key];
      var first := Decode(s, a, minConsecutive);
      var middle := Decode(first.0, init, minConsecutive);
      var last := Feed(middle.0, key, minConsecutive);
      Associate(first.1, middle.1, last.1);
    }
  }

  lemma {:induction false} BlocksAppend(a: seq<int>, b: seq<int>, blockSize: nat, classify: seq<int> -> Option<Key>)
    requires blockSize > 0 && WholeBlocks(a, blockSize)
    ensures BlockKeys(a + b, blockSize, classify) == BlockKeys(a, blockSize, classify) + BlockKeys(b, blockSize, classify)
    decreases |a|
  {
    if a == [] {
      assert a + b == b;
    } else {
      BlocksAppend(a[blockSize..], b, blockSize, classify);
      assert (a + b)[..blockSize] == a[..blockSize];
      assert (a + b)[blockSize..] == a[blockSize..] + b;
    }
  }

  /** Decoding a buffer cut at a block boundary, carrying the state over, is decoding it whole. */
  lemma CutAtBlockBoundary(s: Debounce, a: seq<int>, b: seq<int>, blockSize: nat,
                           classify: seq<int> -> Option<Key>, minConsecutive: int)
    requires blockSize > 0 && WholeBlocks(a, blockSize)
    ensures var first := Decode(s, BlockKeys(a, blockSize, classify), minConsecutive);
            var second := Decode(first.0, BlockKeys(b, blockSize, classify), minConsecutive);
            Decode(s, BlockKeys(a + b, blockSize, classify), minConsecutive) == (second.0, first.1 + second.1)
  {
    BlocksAppend(a, b, blockSize, classify);
    DecodeAppend(s, BlockKeys(a, blockSize, classify), BlockKeys(b, blockSize, classify), minConsecutive);
  }

  // ----- what the keys mean: long runs, collapsed, segment by segment -----

  /** The length of the run of equal keys that ends the segment. */
  function FinalRun(segment: seq<Key>): (n: nat)
    requires segment != []
    ensures 0 < n <= |segment|
  {
    if |segment| == 1 || segment[|segment| - 2] != segment[|segment| - 1] then 1
    else FinalRun(segment[..|segment| - 1]) + 1
  }

  /** It is a run, and no longer one ends the segment. */
  lemma {:induction false} FinalRunIsMaximal(segment: seq<Key>)
    requires segment != []
    ensures var n, last := FinalRun(segment), |segment| - 1;
            && (forall i | |segment| - n <= i < |segment| :: segment[i] == segment[last])
            && (n < |segment| ==> segment[last - n] != segment[last])
  {
    if |segment| > 1 && segment[|segment| - 2] == segment[|segment| - 1] {
      FinalRunIsMaximal(segment[..|segment| - 1]);
    }
  }

  /** The keys of the maximal runs that are long enough, in order. */
  function LongRuns(segment: seq<Key>, minConsecutive: int): seq<Key>
    decreases |segment|
  {
    if segment == [] then []
    else
      var n := FinalRun(segment);
      var earlier := LongRuns(segment[..|segment| - n], minConsecutive);
      if n >= minConsecutive then earlier + [segment[|segment| - 1]] else earlier
  }

  /** Adjacent equal keys merged into one. */
  function Collapse(keys: seq<Key>): seq<Key> {
    if |keys| <= 1 then keys
    else
      var earlier := Collapse(keys[..|keys| - 1]);
      if keys[|keys| - 2] == keys[|keys| - 1] then earlier else earlier + [keys[|keys| - 1]]
  }

  /** The keys since the last silence. */
  function FinalSegment(keys: seq<Option<Key>>): (segment: seq<Key>)
    ensures |segment| <= |keys|
    ensures forall i | 0 <= i < |segment| :: keys[|keys| - |segment| + i] == Some(segment[i])
    ensures |segment| < |keys| ==> keys[|keys| - |segment| - 1] == None
  {
    if keys == [] || keys[|keys| - 1].None? then []
    else FinalSegment(keys[..|keys| - 1]) + [keys[|keys| - 1].value]
  }

  /** Segment by segment between silences, the keys of the long runs with repetitions collapsed. */
  function Pressed(keys: seq<Option<Key>>, minConsecutive: int): seq<Key>
    decreases |keys|, 1
  {
    PressedEarlier(keys, |FinalSegment(keys)|, minConsecutive)
    + Collapse(LongRuns(FinalSegment(keys), minConsecutive))
  }

  /** What was pressed before a final segment of this length and the silence it follows. */
  function PressedEarlier(keys: seq<Option<Key>>, length: nat, minConsecutive: int): seq<Key>
    requires length <= |keys|
    decreases |keys|, 0
  {
    if length == |keys| then [] else Pressed(keys[..|keys| - length - 1], minConsecutive)
  }

  function LastOf(keys: seq<Key>): Option<Key> { if keys == [] then None else Some(keys[|keys| - 1]) }

  lemma {:induction false} CollapseKeepsLast(keys: seq<Key>)
    ensures LastOf(Collapse(keys)) == LastOf(keys)
  {
    if |keys| > 1 {
      CollapseKeepsLast(keys[..|keys| - 1]);
    }
  }

  lemma CollapseAppend(keys: seq<Key>, key: Key)
    ensures Collapse(keys + [key]) == if LastOf(keys) == Some(key) then Collapse(keys) else Collapse(keys) + [key]
  {
    assert (keys + [key])[..|keys|] == keys;
    if keys == [] {
      assert Collapse([]) == [] && [] + [key] == [key];
    }
  }

  /** The final run and the long runs once the segment has one more key. */
  lemma FinalRunAppend(segment: seq<Key>, key: Key)
    ensures LastOf(segment) == Some(key) ==> FinalRun(segment + [key]) == FinalRun(segment) + 1
    ensures LastOf(segment) != Some(key) ==> FinalRun(segment + [key]) == 1
  {
    assert (segment + [key])[..|segment|] == segment;
  }

  lemma LongRunsAppendSame(segment: seq<Key>, key: Key, minConsecutive: int)
    requires LastOf(segment) == Some(key)
    ensures var n := FinalRun(segment);
            LongRuns(segment + [key], minConsecutive)
            == if n + 1 >= minConsecutive > n then LongRuns(segment, minConsecutive) + [key]
               else LongRuns(segment, minConsecutive)
  {
    FinalRunAppend(segment, key);
    var n := FinalRun(segment);
    assert (segment + [key])[..|segment| - n] == segment[..|segment| - n];
  }

  lemma LongRunsAppendNew(segment: seq<Key>, key: Key, minConsecutive: int)
    requires LastOf(segment) != Some(key)
    ensures LongRuns(segment + [key], minConsecutive)
            == if 1 >= minConsecutive then LongRuns(segment, minConsecutive) + [key] else LongRuns(segment, minConsecutive)
  {
    FinalRunAppend(segment, key);
    assert (segment + [key])[..|segment|] == segment;
  }

  /** A long final run is the last long run. */
  lemma FinalLongRun(segment: seq<Key>, minConsecutive: int)
    requires segment != [] && FinalRun(segment) >= minConsecutive
    ensures LastOf(LongRuns(segment, minConsecutive)) == Some(segment[|segment| - 1])
  {
  }

  /** What the decoder holds after a stream. */
  ghost predicate Holds(s: Debounce, segment: seq<Key>, minConsecutive: int) {
    && s.lastKey == LastOf(segment)
    && s.count == (if segment == [] then 0 else FinalRun(segment))
    && s.lastValidated == LastOf(LongRuns(segment, minConsecutive))
  }

  /** Does one more equal or new key make a run long? n is the length of the final run before it. */
  predicate Grows(same: bool, n: nat, minConsecutive: int) {
    if same then n + 1 >= minConsecutive > n else 1 >= minConsecutive
  }

  /** The decoder validates a key exactly when it adds to the collapsed runs, whatever the runs before it. */
  lemma FeedOn(s: Debounce, key: Key, minConsecutive: int, runs: seq<Key>, after: seq<Key>)
    requires s.lastValidated == LastOf(runs)
    requires s.lastKey == Some(key) && s.count >= minConsecutive ==> LastOf(runs) == Some(key)
    requires after == if Grows(s.lastKey == Some(key), s.count, minConsecutive) then runs + [key] else runs
    ensures var (next, sent) := Feed(s, Some(key), minConsecutive);
            && next.lastKey == Some(key) && next.count == (if s.lastKey == Some(key) then s.count + 1 else 1)
            && next.lastValidated == LastOf(after)
            && Collapse(after) == Collapse(runs) + sent
  {
    CollapseAppend(runs, key);
  }

  /** One more key of the segment: the decoder validates it exactly when it adds to the collapsed long runs. */
  lemma FeedKey(s: Debounce, segment: seq<Key>, key: Key, minConsecutive: int)
    requires Holds(s, segment, minConsecutive)
    ensures var (next, sent) := Feed(s, Some(key), minConsecutive);
            && Holds(next, segment + [key], minConsecutive)
            && Collapse(LongRuns(segment + [key], minConsecutive))
               == Collapse(LongRuns(segment, minConsecutive)) + sent
  {
    FinalRunAppend(segment, key);
    if LastOf(segment) == Some(key) {
      LongRunsAppendSame(segment, key, minConsecutive);
      if FinalRun(segment) >= minConsecutive {
        FinalLongRun(segment, minConsecutive);
      }
    } else {
      LongRunsAppendNew(segment, key, minConsecutive);
    }
    FeedOn(s, key, minConsecutive, LongRuns(segment, minConsecutive), LongRuns(segment + [key], minConsecutive));
  }

  lemma PressedAppendSilence(keys: seq<Option<Key>>, minConsecutive: int)
    ensures FinalSegment(keys + [None]) == []
    ensures Pressed(keys + [None], minConsecutive) == Pressed(keys, minConsecutive)
  {
    assert (keys + [None])[..|keys|] == keys;
    assert Collapse(LongRuns([], minConsecutive)) == [];
  }

  lemma PressedAppendKey(keys: seq<Option<Key>>, key: Key, sent: seq<Key>, minConsecutive: int)
    requires Collapse(LongRuns(FinalSegment(keys) + [key], minConsecutive))
             == Collapse(LongRuns(FinalSegment(keys), minConsecutive)) + sent
    ensures FinalSegment(keys + [Some(key)]) == FinalSegment(keys) + [key]
    ensures Pressed(keys + [Some(key)], minConsecutive) == Pressed(keys, minConsecutive) + sent
  {
    var segment := FinalSegment(keys);
    FinalSegmentAppend(keys, key);
    PressedEarlierSame(keys, key, |segment|, minConsecutive);
    PressedIs(keys, segment, minConsecutive);
    PressedIs(keys + [Some(key)], segment + [key], minConsecutive);
    Associate(PressedEarlier(keys, |segment|, minConsecutive), Collapse(LongRuns(segment, minConsecutive)), sent);
  }

  lemma PressedIs(keys: seq<Option<Key>>, segment: seq<Key>, minConsecutive: int)
    requires segment == FinalSegment(keys)
    ensures Pressed(keys, minConsecutive)
            == PressedEarlier(keys, |segment|, minConsecutive) + Collapse(LongRuns(segment, minConsecutive))
  {
  }

  lemma FinalSegmentAppend(keys: seq<Option<Key>>, key: Key)
    ensures FinalSegment(keys + [Some(key)]) == FinalSegment(keys) + [key]
  {
    assert (keys + [Some(key)])[..|keys|] == keys;
  }

  lemma PressedEarlierSame(keys: seq<Option<Key>>, key: Key, length: nat, minConsecutive: int)
    requires length <= |keys|
    ensures PressedEarlier(keys + [Some(key)], length + 1, minConsecutive) == PressedEarlier(keys, length, minConsecutive)
  {
    if length < |keys| {
      assert (keys + [Some(key)])[..|keys| - length - 1] == keys[..|keys| - length - 1];
    }
  }

  lemma Associate(a: seq<Key>, b: seq<Key>, c: seq<Key>)
    ensures a + (b + c) == (a + b) + c
  {
  }

  /** From idle, the decoder reports exactly the pressed keys, for any sequence of block keys and any minimum. */
  lemma {:induction false} DecodesPressedKeys(keys: seq<Option<Key>>, minConsecutive: int)
    ensures Decode(IDLE, keys, minConsecutive).1 == Pressed(keys, minConsecutive)
    ensures Holds(Decode(IDLE, keys, minConsecutive).0, FinalSegment(keys), minConsecutive)
  {
    if keys == [] {
      assert LongRuns([], minConsecutive) == [];
    } else {
      var init, last := keys[..|keys| - 1], keys[|keys| - 1];
      DecodesPressedKeys(init, minConsecutive);
      assert keys == init + [last];
      var before := Decode(IDLE, init, minConsecutive);
      match last {
        case None =>
          PressedAppendSilence(init, minConsecutive);
          assert before.1 + [] == before.1;
        case Some(key) =>
          FeedKey(before.0, FinalSegment(init), key, minConsecutive);
          PressedAppendKey(init, key, Feed(before.0, last, minConsecutive).1, minConsecutive);
      }
    }
  }
}
