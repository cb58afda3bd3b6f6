/**
 * The Konami-code detector of index.js:223-240: a naive automaton over key
 * names whose state is the index of the next expected key.
 */
module Konami {

  /** The ten key names of index.js:223, in order. */
  const Code: seq<string> :=
    ["ArrowUp", "ArrowUp", "ArrowDown", "ArrowDown", "ArrowLeft",
     "ArrowRight", "ArrowLeft", "ArrowRight", "b", "a"]

  /** The index after one keydown, and whether that keydown revealed every hidden text. */
  datatype Transition = Transition(next: nat, revealAll: bool)

  /**
   * One keydown (index.js:226-240). The key either is the expected one, and
   * the index advances (wrapping to 0 with a reveal after the last key), or it
   * is not, and the index drops to 0 without retrying the key.
   */
  function Step(index: nat, key: string): (t: Transition)
    requires index < |Code|
    ensures t.next < |Code|
    ensures key == Code[index] <==> t.next == index + 1 || t.revealAll
    ensures t.revealAll <==> index == |Code| - 1 && key == Code[index]
    ensures t.next != index + 1 ==> t.next == 0
  {
    if key == Code[index] then
      if index + 1 == |Code| then Transition(0, true) else Transition(index + 1, false)
    else
      Transition(0, false)
  }

  /** The index after a run of keydowns, and how many of them revealed everything. */
  datatype Trace = Trace(index: nat, revealCount: nat)

  /**
   * Feeds keys one by one from index. Every reveal consumes ten keys of the
   * run (or fewer for the first, by the progress already made), so
   * 10 * revealCount + index never exceeds the starting index plus the keys fed.
   */
  function Run(index: nat, keys: seq<string>): (tr: Trace)
    requires index < |Code|
    ensures tr.index < |Code|
    ensures |Code| * tr.revealCount + tr.index <= index + |keys|
    decreases |keys|
  {
    if keys == [] then Trace(index, 0)
    else
      var t := Step(index, keys[0]);
      var rest := Run(t.next, keys[1..]);
      Trace(rest.index, rest.revealCount + if t.revealAll then 1 else 0)
  }

  /** Running a + b is running a, then b from where a left off. */
  lemma {:induction false} RunAppend(index: nat, a: seq<string>, b: seq<string>)
    requires index < |Code|
    ensures Run(index, a + b).index == Run(Run(index, a).index, b).index
    ensures Run(index, a + b).revealCount == Run(index, a).revealCount + Run(Run(index, a).index, b).revealCount
    decreases |a|
  {
    if a != [] {
      assert (a + b)[0] == a[0];
      assert (a + b)[1..] == a[1..] + b;
      RunAppend(Step(index, a[0]).next, a[1..], b);
    } else {
      assert a + b == b;
    }
  }

  /** A proper prefix of the code, typed from rest, advances the index to its length and reveals nothing. */
  lemma {:induction false} PrefixAdvances(k: nat)
    requires k < |Code|
    ensures Run(0, Code[..k]) == Trace(k, 0)
  {
    if k > 0 {
      PrefixAdvances(k - 1);
      assert Code[..k] == Code[..k - 1] + [Code[k - 1]];
      RunAppend(0, Code[..k - 1], [Code[k - 1]]);
      assert [Code[k - 1]][1..] == [];
    }
  }

  /** From index k, the rest of the code completes the sequence: one reveal, back at 0. */
  lemma {:induction false} RemainderCompletes(k: nat)
    requires k < |Code|
    ensures Run(k, Code[k..]) == Trace(0, 1)
    decreases |Code| - k
  {
    assert Code[k..][0] == Code[k];
    assert Code[k..][1..] == Code[k + 1..];
    if k + 1 < |Code| {
      RemainderCompletes(k + 1);
    }
  }

  /** The full code typed from rest reveals everything exactly once and leaves the index at 0. */
  lemma FullCodeRevealsOnce()
    ensures Run(0, Code) == Trace(0, 1)
  {
  }

  /**
   * Whatever was typed before, once the detector is back at 0 (after a
   * mismatch or a completed code) typing the code reveals exactly once more.
   */
  lemma RetryAfterReset(keys: seq<string>)
    requires Run(0, keys).index == 0
    ensures Run(0, keys + Code) == Trace(0, Run(0, keys).revealCount + 1)
  {
    RunAppend(0, keys, Code);
    FullCodeRevealsOnce();
  }

  /**
   * The index is the length of a prefix of the code that the typed keys end
   * with: a non-zero index is never reached by anything but the expected keys.
   */
  lemma {:induction false} IndexIsTypedPrefix(keys: seq<string>)
    ensures Run(0, keys).index <= |keys|
    ensures keys[|keys| - Run(0, keys).index..] == Code[..Run(0, keys).index]
    decreases |keys|
  {
    if keys != [] {
      var init, last := keys[..|keys| - 1], keys[|keys| - 1];
      assert keys == init + [last];
      IndexIsTypedPrefix(init);
      RunAppend(0, init, [last]);
      var p := Run(0, init).index;
      assert [last][1..] == [];
      var t := Step(p, last);
      if t.next == p + 1 {
        assert keys[|keys| - (p + 1)..] == init[|init| - p..] + [last];
        assert Code[..p + 1] == Code[..p] + [Code[p]];
      }
    }
  }

  /** A keydown reveals everything only if it ends a run of keys that spells the whole code. */
  lemma RevealNeedsFullCode(keys: seq<string>, key: string)
    requires Step(Run(0, keys).index, key).revealAll
    ensures |keys + [key]| >= |Code| && (keys + [key])[|keys| + 1 - |Code|..] == Code
  {
    IndexIsTypedPrefix(keys);
    var all := keys + [key];
    assert all[|all| - |Code|..] == keys[|keys| - (|Code| - 1)..] + [key];
    assert Code == Code[..|Code| - 1] + [Code[|Code| - 1]];
  }

  /** From rest, keys that are never "ArrowUp" leave the detector at rest with no reveal. */
  lemma {:induction false} WithoutUpStaysAtRest(keys: seq<string>)
    requires forall i :: 0 <= i < |keys| ==> keys[i] != "ArrowUp"
    ensures Run(0, keys) == Trace(0, 0)
    decreases |keys|
  {
    if keys != [] {
      WithoutUpStaysAtRest(keys[1..]);
    }
  }

  /**
   * The automaton does not retry a mismatching key: one extra "ArrowUp"
   * before the code (three in a row) defeats it, and nothing is revealed.
   */
  lemma ExtraUpDefeatsCode()
    ensures Run(0, ["ArrowUp"] + Code).revealCount == 0
  {
  }
}
