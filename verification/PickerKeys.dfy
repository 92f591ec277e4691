/** Raw input to the picker: a chunk of bytes cut into keys, arrow sequences decoded first. */
module PickerKeys {
  import opened Prelude
  import opened Picker

  const KEY_UP: byte := 0x10
  const KEY_DOWN: byte := 0x0e

  /** The key an arrow sequence at the head of `bytes` stands for. */
  function Arrow(bytes: seq<byte>): Option<byte> {
    if |bytes| >= 3 && bytes[0] == ESC && bytes[1] == BRACKET then
      if bytes[2] == 0x41 then Some(KEY_UP)
      else if bytes[2] == 0x42 then Some(KEY_DOWN)
      else None
    else None
  }

  function KeysIn(bytes: seq<byte>): seq<byte> {
    if bytes == [] then []
    else
      match Arrow(bytes)
      case Some(key) => [key] + KeysIn(bytes[3..])
      case None => [bytes[0]] + KeysIn(bytes[1..])
  }

  /** The keys handled in order, up to the first that commits or cancels; the rest is dropped. */
  function Pressed(s: State, keys: seq<byte>): (State, Option<Outcome>)
    decreases |keys|
  {
    if keys == [] then (s, None)
    else
      var (next, o) := HandleKey(s, keys[0]);
      if o.Some? then (next, o) else Pressed(next, keys[1..])
  }

  lemma {:induction false} PressedCons(s: State, key: byte, keys: seq<byte>)
    ensures Pressed(s, [key] + keys) ==
            var (next, o) := HandleKey(s, key); if o.Some? then (next, o) else Pressed(next, keys)
  {
    assert ([key] + keys)[1..] == keys;
  }

  lemma PressedNothing(s: State)
    ensures Pressed(s, []) == (s, None)
  {
  }

  method FeedPickerBytes(state: PickerState, bytes: seq<byte>) returns (outcome: Option<Outcome>)
    modifies state
    ensures (state.Value(), outcome) == Pressed(old(state.Value()), KeysIn(bytes))
  {
    hide HandleKey, Pressed;
    var i := 0;
    PressedNothing(state.Value());
    while i < |bytes|
      invariant 0 <= i <= |bytes|
      invariant Pressed(state.Value(), KeysIn(bytes[i..])) == Pressed(old(state.Value()), KeysIn(bytes))
    {
      var rest := bytes[i..];
      if bytes[i] == ESC && i + 2 < |bytes| && bytes[i + 1] == BRACKET {
        var arrow: Option<byte> :=
          if bytes[i + 2] == 0x41 then Some(KEY_UP) else if bytes[i + 2] == 0x42 then Some(KEY_DOWN) else None;
        if arrow.Some? {
          assert rest[3..] == bytes[i + 3..];
          PressedCons(state.Value(), arrow.value, KeysIn(bytes[i + 3..]));
          outcome := state.Handle(arrow.value);
          if outcome.Some? {
            return;
          }
          i := i + 3;
          continue;
        }
      }
      assert rest[1..] == bytes[i + 1..];
      PressedCons(state.Value(), bytes[i], KeysIn(bytes[i + 1..]));
      outcome := state.Handle(bytes[i]);
      if outcome.Some? {
        return;
      }
      i := i + 1;
    }
    PressedNothing(state.Value());
    outcome := None;
  }

  // --- chunk boundaries ---

  /** The cut between `a` and `b` falls inside an arrow sequence. */
  predicate CutsArrow(a: seq<byte>, b: seq<byte>) {
    || (|a| >= 1 && a[|a| - 1] == ESC && Arrow([ESC] + b).Some?)
    || (|a| >= 2 && a[|a| - 2] == ESC && a[|a| - 1] == BRACKET && Arrow([ESC, BRACKET] + b).Some?)
  }

  lemma ArrowCut(a: seq<byte>, b: seq<byte>)
    requires a != [] && !CutsArrow(a, b)
    ensures Arrow(a + b) == Arrow(a)
  {
    if |a| == 1 {
      assert a[0] == ESC ==> a + b == [ESC] + b;
    } else if |a| == 2 {
      assert a[0] == ESC && a[1] == BRACKET ==> a + b == [ESC, BRACKET] + b;
    }
  }

  lemma {:induction false} KeysInCut(a: seq<byte>, b: seq<byte>)
    requires !CutsArrow(a, b)
    ensures KeysIn(a + b) == KeysIn(a) + KeysIn(b)
  {
    if a == [] {
      assert a + b == b;
    } else {
      var n := if Arrow(a).Some? then 3 else 1;
      assert (a + b)[n..] == a[n..] + b;
      ArrowCut(a, b);
      assert !CutsArrow(a[n..], b);
      KeysInCut(a[n..], b);
    }
  }

  lemma {:induction false} PressedConcat(s: State, a: seq<byte>, b: seq<byte>)
    ensures var (next, o) := Pressed(s, a);
            Pressed(s, a + b) == if o.Some? then (next, o) else Pressed(next, b)
    decreases |a|
  {
    hide HandleKey;
    if a == [] {
      assert a + b == b;
    } else {
      assert (a + b)[1..] == a[1..] + b;
      PressedConcat(HandleKey(s, a[0]).0, a[1..], b);
    }
  }

  /** When the arrow starts at the head of `a`. */
  lemma LooseKeys(a: seq<byte>, b: seq<byte>)
    requires a != [] && Arrow(a + b).Some? && Arrow(a).None?
    ensures |KeysIn(a + b)| < |KeysIn(a)| + |KeysIn(b)|
  {
    var used := 3 - |a|;
    assert (a + b)[3..] == b[used..];
    assert forall i :: 0 <= i < used ==> b[i] == (a + b)[|a| + i];
    assert b[0] != ESC;
    if used == 2 {
      assert b[1..][1..] == b[2..] && b[1] != ESC;
    }
  }

  /** A cut arrow is read as loose keys: at least one key more than the uncut input holds. */
  lemma {:induction false} KeysInCutArrow(a: seq<byte>, b: seq<byte>)
    requires CutsArrow(a, b)
    ensures |KeysIn(a + b)| < |KeysIn(a)| + |KeysIn(b)|
  {
    if Arrow(a + b).Some? && Arrow(a).None? {
      LooseKeys(a, b);
    } else {
      var n := if Arrow(a).Some? then 3 else 1;
      assert (a + b)[n..] == a[n..] + b;
      assert Arrow(a + b) == Arrow(a);
      assert CutsArrow(a[n..], b);
      KeysInCutArrow(a[n..], b);
    }
  }

  /** Keys are recognised chunk by chunk exactly when no chunk boundary cuts an arrow sequence. */
  lemma {:induction false} KeysInChunksIff(a: seq<byte>, b: seq<byte>)
    ensures KeysIn(a + b) == KeysIn(a) + KeysIn(b) <==> !CutsArrow(a, b)
  {
    if CutsArrow(a, b) {
      KeysInCutArrow(a, b);
    } else {
      KeysInCut(a, b);
    }
  }

  /** Two chunks without a cut arrow act as one. */
  lemma FeedChunks(s: State, a: seq<byte>, b: seq<byte>)
    requires !CutsArrow(a, b)
    ensures var (next, o) := Pressed(s, KeysIn(a));
            Pressed(s, KeysIn(a + b)) == if o.Some? then (next, o) else Pressed(next, KeysIn(b))
  {
    hide HandleKey, Pressed, KeysIn, CutsArrow;
    KeysInCut(a, b);
    PressedConcat(s, KeysIn(a), KeysIn(b));
  }

  /** Whole arrows move, up and down; any byte alone is a key. */
  lemma {:induction false} ArrowsMove(s: State, b: byte)
    requires s.mode == Navigate
    ensures Pressed(s, KeysIn([ESC, BRACKET, 0x41])) == (s.Moved(-1), None)
    ensures Pressed(s, KeysIn([ESC, BRACKET, 0x42])) == (s.Moved(1), None)
    ensures KeysIn([b]) == [b]
    ensures b != 0x41 && b != 0x42 ==> KeysIn([ESC, BRACKET, b]) == [ESC, BRACKET, b]
  {
    hide Matching;
    assert KeysIn([ESC, BRACKET, 0x41]) == [KEY_UP];
    assert KeysIn([ESC, BRACKET, 0x42]) == [KEY_DOWN];
    if b != 0x41 && b != 0x42 {
      assert [ESC, BRACKET, b][1..] == [BRACKET, b] && [BRACKET, b][1..] == [b];
      assert KeysIn([BRACKET, b]) == [BRACKET] + KeysIn([b]);
    }
  }

  /** An arrow cut behind its escape byte cancels a picker that the whole arrow would only have
      moved. */
  lemma {:induction false} CutArrowCancels(s: State)
    requires s.mode == Navigate
    ensures CutsArrow([ESC], [BRACKET, 0x41])
    ensures Pressed(s, KeysIn([ESC])) == (s, Some(Cancel))
    ensures Pressed(s, KeysIn([ESC, BRACKET, 0x41])) == (s.Moved(-1), None)
  {
    hide Matching;
    assert [ESC] + [BRACKET, 0x41] == [ESC, BRACKET, 0x41];
    assert KeysIn([ESC]) == [ESC];
    assert KeysIn([ESC, BRACKET, 0x41]) == [KEY_UP];
  }
}
