/** `StringEngine`: runs a script on a string input and collects the output in
    a string. Its input stream reads the characters of the input in order and
    then -1; its output stream appends `(char) i` for every value written. */
module BrainfuckInterpreter {
  import opened JavaTypes
  import opened Script
  import opened Semantics
  import opened Interpreter

  /** One `read()` from position `p` of `s`: the character there and the next
      position, or -1 and the same position once `s` is exhausted. */
  function ReadAt(s: seq<JChar>, p: nat): (r: (int, nat))
    requires p <= |s|
    ensures r.1 <= |s| && (r.0 == -1 <==> p == |s|)
    ensures p < |s| ==> r.0 == s[p] && r.1 == p + 1
    ensures p == |s| ==> r.1 == p
  {
    if p == |s| then (-1, p) else (s[p], p + 1)
  }

  /** The values of `k` successive `read()` calls from position `p`. */
  function Reads(s: seq<JChar>, p: nat, k: nat): (r: seq<int>)
    requires p <= |s|
    ensures |r| == k
    decreases k
  {
    if k == 0 then [] else [ReadAt(s, p).0] + Reads(s, ReadAt(s, p).1, k - 1)
  }

  function Repeat(x: int, n: nat): (r: seq<int>)
    ensures |r| == n && forall k :: 0 <= k < n ==> r[k] == x
  {
    seq(n, _ => x)
  }

  /** Reads that stay within `s` return its characters in order. */
  lemma {:induction false} ReadsWithin(s: seq<JChar>, p: nat, k: nat)
    requires p + k <= |s|
    ensures Reads(s, p, k) == s[p..p + k]
    decreases k
  {
    if k > 0 {
      ReadsWithin(s, p + 1, k - 1);
      assert Reads(s, p, k) == [s[p]] + Reads(s, p + 1, k - 1);
      assert s[p..p + k] == [s[p]] + s[p + 1..p + k];
    }
  }

  /** Reads at the end of `s` return -1 and stay there. */
  lemma {:induction false} ReadsExhausted(s: seq<JChar>, k: nat)
    ensures Reads(s, |s|, k) == Repeat(-1, k)
    decreases k
  {
    if k > 0 {
      ReadsExhausted(s, k - 1);
      assert Reads(s, |s|, k) == [-1] + Reads(s, |s|, k - 1);
      assert Repeat(-1, k) == [-1] + Repeat(-1, k - 1);
    }
  }

  /** Reads that run past the end of `s` return the rest of it, then -1s. */
  lemma {:induction false} ReadsBeyond(s: seq<JChar>, p: nat, k: nat)
    requires p <= |s| < p + k
    ensures Reads(s, p, k) == s[p..] + Repeat(-1, p + k - |s|)
    decreases k
  {
    if p == |s| {
      ReadsExhausted(s, k);
    } else {
      ReadsBeyond(s, p + 1, k - 1);
      assert Reads(s, p, k) == [s[p]] + Reads(s, p + 1, k - 1);
      assert s[p..] == [s[p]] + s[p + 1..];
    }
  }

  /** Successive reads return the unread characters in order, each once, and
      then -1 for ever. */
  lemma ReadsInOrder(s: seq<JChar>, p: nat, k: nat)
    requires p <= |s|
    ensures p + k <= |s| ==> Reads(s, p, k) == s[p..p + k]
    ensures p + k > |s| ==> Reads(s, p, k) == s[p..] + Repeat(-1, p + k - |s|)
  {
    if p + k <= |s| {
      ReadsWithin(s, p, k);
    } else {
      ReadsBeyond(s, p, k);
    }
  }

  /** A suffix of the unread part `a[p..]` is what lies past the same number
      of values from the end of `a`. */
  lemma UnreadSuffix(a: seq<JChar>, p: nat, rest: seq<JChar>)
    requires p <= |a| && |rest| <= |a| - p
    requires rest == a[p..][|a| - p - |rest|..]
    ensures a[|a| - |rest|..] == rest
  {
  }

  class StringEngine {
    var output: seq<JChar>
    const input: array<JChar>
    var inputPtr: int
    const en: Engine1

    ghost predicate Valid()
      reads this, en
    {
      0 <= inputPtr <= input.Length && en.Valid()
    }

    /** The engine's view of the streams agrees with this adapter's state: what
        the engine may still read is the unread part of `input`, and what it
        printed is `output`. */
    ghost predicate Synced()
      reads this, input, en
      requires Valid()
    {
      en.input == input[inputPtr..] && en.output == output
    }

    /** `new StringEngine(script, input_str)`: `input` is a copy of `input_str`. */
    constructor (script: seq<JChar>, inputStr: seq<JChar>)
      ensures Valid() && Synced()
      ensures input[..] == inputStr && inputPtr == 0 && output == []
      ensures en.State() == Initial(script, inputStr)
      ensures fresh(input) && fresh(en) && fresh(en.cells) && fresh(en.script)
    {
      input := new JChar[|inputStr|](k requires 0 <= k < |inputStr| => inputStr[k]);
      inputPtr := 0;
      output := [];
      en := new Engine1(script, inputStr);
      new;
      assert input[..] == inputStr;
      assert input[inputPtr..] == inputStr;
    }

    /** The input stream's `read()`. */
    method Read() returns (r: int)
      requires Valid()
      modifies this`inputPtr
      ensures Valid()
      ensures (r, inputPtr) == ReadAt(input[..], old(inputPtr))
    {
      if inputPtr == input.Length {
        return -1;
      }
      r := input[inputPtr];
      inputPtr := inputPtr + 1;
    }

    /** The output stream's `write(i)`. */
    method Write(i: int)
      modifies this`output
      ensures output == old(output) + [ToChar(i)]
    {
      output := output + [ToChar(i)];
    }

    /** `interpret`: run the engine (for at most `fuel` turns of its loop) and
        return the accumulated output. The engine's reads advance `inputPtr`,
        and the values it consumed are exactly those that `read()` returns
        from the old `inputPtr` on; its writes extend `output`. */
    method Interpret(fuel: nat) returns (r: Outcome, out: seq<JChar>)
      requires Valid() && Synced()
      modifies this`inputPtr, this`output, en, en.cells
      ensures Valid() && Synced()
      ensures Final(r, en.State()) == Execute(old(en.State()), fuel)
      ensures old(inputPtr) <= inputPtr && old(output) <= output
      ensures old(en.input) == input[old(inputPtr)..inputPtr] + en.input
      ensures out == output
    {
      ghost var chars, start, unread := input[..], inputPtr, en.input;
      r := en.Interpret(fuel);
      TrackStreams(chars, start, unread);
      out := output;
    }

    /** The effect on this adapter of the engine's stream calls during a run:
        each value the engine consumed was one `read()`, which advanced
        `inputPtr`, and each value it printed was one `write`, appended to
        `output`. Before the run `inputPtr` was `start`, so the engine could
        read `unread`, the rest of `chars`. */
    method TrackStreams(ghost chars: seq<JChar>, ghost start: nat, ghost unread: seq<JChar>)
      requires 0 <= inputPtr <= input.Length && en.Valid()
      requires chars == input[..] && start == inputPtr && unread == chars[start..]
      requires output <= en.output
      requires |en.input| <= |unread| && en.input == unread[|unread| - |en.input|..]
      modifies this`inputPtr, this`output
      ensures Valid() && Synced()
      ensures start <= inputPtr && old(output) <= output
      ensures unread == chars[start..inputPtr] + en.input
    {
      UnreadSuffix(chars, start, en.input);
      inputPtr := input.Length - |en.input|;
      assert chars[start..] == chars[start..inputPtr] + chars[inputPtr..];
      output := en.output;
    }
  }

  /** What `Interpret` promises about the consumed input, `before ==
      input[p..q] + after`, says that the engine consumed exactly the values
      of `q - p` successive `read()` calls from `p`. */
  lemma {:induction false} RunConsumesReads(s: seq<JChar>, p: nat, q: nat, before: seq<JChar>, after: seq<JChar>)
    requires p <= q <= |s| && before == s[p..q] + after
    ensures before == Reads(s, p, q - p) + after
    ensures forall k :: 0 <= k < q - p ==> ReadAt(s, p + k).0 == before[k]
  {
    ReadsInOrder(s, p, q - p);
    forall k | 0 <= k < q - p
      ensures ReadAt(s, p + k).0 == before[k]
    {
      assert before[k] == s[p + k];
    }
  }

  /** The adapter reads its input front to back: from a fresh adapter the
      engine's stream is exactly the input string. */
  lemma FreshAdapterStreamsInput(inputStr: seq<JChar>, k: nat)
    ensures k <= |inputStr| ==> Reads(inputStr, 0, k) == inputStr[..k]
    ensures Reads(inputStr, 0, |inputStr| + k) == inputStr + Repeat(-1, k)
  {
    ReadsInOrder(inputStr, 0, k);
    ReadsInOrder(inputStr, 0, |inputStr| + k);
    if k > 0 {
      assert inputStr[0..] == inputStr;
    } else {
      assert Repeat(-1, 0) == [];
    }
  }
}
