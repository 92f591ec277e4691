/** Telling the outer terminal's keyboard protocol from its reply to the probe. */
module KeyboardReply {
  import opened Prelude
  import opened Probe
  import opened OuterTerminal

  const LETTER_P: byte := 0x50

  /** `s[i..e]` is a flags report: `ESC [ ?`, digits, `u`. */
  predicate IsFlagsReport(s: seq<byte>, i: nat, e: nat) {
    && i + 5 <= e <= |s|
    && s[i] == ESC && s[i + 1] == BRACKET && s[i + 2] == QUESTION
    && (forall k :: i + 3 <= k < e - 1 ==> IsDigit(s[k]))
    && s[e - 1] == FINAL_U
  }

  ghost predicate HasFlagsReport(s: seq<byte>) { exists i: nat, e: nat :: IsFlagsReport(s, i, e) }

  predicate IsVersionIntro(s: seq<byte>, i: nat) {
    i + 3 <= |s| && s[i] == ESC && s[i + 1] == LETTER_P && s[i + 2] == GREATER
  }

  ghost predicate HasVersionIntro(s: seq<byte>) { exists i: nat :: IsVersionIntro(s, i) }

  method HasKittyFlagsReport(reply: seq<byte>) returns (found: bool)
    ensures found <==> HasFlagsReport(reply)
  {
    var i := 0;
    while i + 2 < |reply|
      invariant 0 <= i
      invariant forall k: nat, e: nat :: k < i ==> !IsFlagsReport(reply, k, e)
    {
      if reply[i] == ESC && reply[i + 1] == BRACKET && reply[i + 2] == QUESTION {
        var j := i + 3;
        var start := j;
        while j < |reply| && IsDigit(reply[j])
          invariant start <= j <= |reply|
          invariant forall k :: start <= k < j ==> IsDigit(reply[k])
        {
          j := j + 1;
        }
        if j > start && j < |reply| && reply[j] == FINAL_U {
          assert IsFlagsReport(reply, i, j + 1);
          return true;
        }
        assert forall e: nat :: IsFlagsReport(reply, i, e) ==> e - 1 == j;
      }
      i := i + 1;
    }
    found := false;
  }

  method HasXtversionReply(reply: seq<byte>) returns (found: bool)
    ensures found <==> HasVersionIntro(reply)
  {
    for i := 0 to |reply|
      invariant forall k: nat :: k < i ==> !IsVersionIntro(reply, k)
    {
      if IsVersionIntro(reply, i) {
        return true;
      }
    }
    found := false;
  }

  ghost function KeyboardOf(reply: seq<byte>): Keyboard {
    if HasFlagsReport(reply) then Kitty(1) else if HasVersionIntro(reply) then ModifyOtherKeys(1) else Legacy
  }

  method Classify(reply: seq<byte>) returns (kbd: Keyboard)
    ensures kbd == KeyboardOf(reply)
    ensures kbd == Kitty(1) <==> HasFlagsReport(reply)
    ensures kbd == ModifyOtherKeys(1) <==> HasVersionIntro(reply) && !HasFlagsReport(reply)
    ensures kbd == Legacy <==> !HasVersionIntro(reply) && !HasFlagsReport(reply)
  {
    var kitty := HasKittyFlagsReport(reply);
    if kitty {
      return Kitty(1);
    }
    var versioned := HasXtversionReply(reply);
    kbd := if versioned then ModifyOtherKeys(1) else Legacy;
  }

  function Level(kbd: Keyboard): nat { match kbd case Kitty(_) => 2 case ModifyOtherKeys(_) => 1 case Legacy => 0 }

  /** Bytes that arrive before or after never lower the protocol a reply shows. */
  lemma MoreBytesNeverLower(before: seq<byte>, reply: seq<byte>, after: seq<byte>)
    ensures Level(KeyboardOf(reply)) <= Level(KeyboardOf(before + reply + after))
  {
    var all := before + reply + after;
    var n := |before|;
    assert forall k :: 0 <= k < |reply| ==> all[n + k] == reply[k];
    if i: nat, e: nat :| IsFlagsReport(reply, i, e) {
      assert forall k :: n + i + 3 <= k < n + e - 1 ==> all[k] == reply[k - n];
      assert IsFlagsReport(all, n + i, n + e);
    } else if i: nat :| IsVersionIntro(reply, i) {
      assert IsVersionIntro(all, n + i);
    }
  }
}
