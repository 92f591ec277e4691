/** What the client switches on in the outer terminal when it attaches, and the bytes that switch
    it off again, interpreted on a byte-level terminal with a keyboard-flag stack of any depth. */
module OuterTerminal {
  import opened Prelude
  import opened Probe

  type u8 = n: int | 0 <= n < 256

  datatype Keyboard = Kitty(flags: u8) | ModifyOtherKeys(level: u8) | Legacy

  datatype EnabledCaps = EnabledCaps(kbd: Keyboard, focusEvents: bool, colorScheme: bool)

  const CSI: seq<byte> := [ESC, BRACKET]
  const GREATER: byte := 0x3e
  const LESS: byte := 0x3c
  const ZERO: byte := 0x30
  const FINAL_U: byte := 0x75
  const FINAL_M: byte := 0x6d
  const FINAL_H: byte := 0x68
  const FINAL_L: byte := 0x6c
  const FOCUS: seq<byte> := [QUESTION, 0x31, 0x30, 0x30, 0x34]
  const SCHEME: seq<byte> := [QUESTION, 0x32, 0x30, 0x33, 0x31]
  const MODIFY_KEYS: seq<byte> := [GREATER, FOUR, SEMICOLON]

  /** Decimal digits, most significant first. */
  function Decimal(n: nat): seq<byte> {
    if n < 10 then [ZERO + n] else Decimal(n / 10) + [ZERO + n % 10]
  }

  function EnableKeyboard(kbd: Keyboard): seq<byte> {
    match kbd
    case Kitty(flags) => CSI + ([GREATER] + Decimal(flags)) + [FINAL_U]
    case ModifyOtherKeys(level) => CSI + (MODIFY_KEYS + Decimal(level)) + [FINAL_M]
    case Legacy => []
  }

  function TeardownKeyboard(kbd: Keyboard): seq<byte> {
    match kbd
    case Kitty(_) => CSI + [LESS] + [FINAL_U]
    case ModifyOtherKeys(_) => CSI + (MODIFY_KEYS + [ZERO]) + [FINAL_M]
    case Legacy => []
  }

  function Switch(on: bool, mode: seq<byte>, final: byte): seq<byte> {
    if on then CSI + mode + [final] else []
  }

  function Enable(caps: EnabledCaps): seq<byte> {
    EnableKeyboard(caps.kbd) + Switch(caps.focusEvents, FOCUS, FINAL_H) + Switch(caps.colorScheme, SCHEME, FINAL_H)
  }

  function Teardown(caps: EnabledCaps): seq<byte> {
    Switch(caps.colorScheme, SCHEME, FINAL_L) + Switch(caps.focusEvents, FOCUS, FINAL_L) + TeardownKeyboard(caps.kbd)
  }

  // --- the terminal ---

  datatype Terminal = Terminal(kbdStack: seq<nat>, focus: bool, scheme: bool, modifyOtherKeys: nat)

  predicate IsDigit(b: byte) { 0x30 <= b <= 0x39 }

  predicate AllDigits(ds: seq<byte>) { ds != [] && forall i :: 0 <= i < |ds| ==> IsDigit(ds[i]) }

  function Number(ds: seq<byte>): nat
    requires forall i :: 0 <= i < |ds| ==> IsDigit(ds[i])
  {
    if ds == [] then 0
    else
      assert IsDigit(ds[|ds| - 1]);
      10 * Number(ds[..|ds| - 1]) + (ds[|ds| - 1] - ZERO)
  }

  /** What one complete control sequence does; the ones that matter here, and nothing else. */
  function Apply(t: Terminal, params: seq<byte>, final: byte): Terminal {
    if final == FINAL_U && params == [LESS] then
      t.(kbdStack := if t.kbdStack == [] then [] else t.kbdStack[..|t.kbdStack| - 1])
    else if final == FINAL_U && |params| > 1 && params[0] == GREATER && AllDigits(params[1..]) then
      t.(kbdStack := t.kbdStack + [Number(params[1..])])
    else if final == FINAL_M && MODIFY_KEYS < params && AllDigits(params[3..]) then
      t.(modifyOtherKeys := Number(params[3..]))
    else if params == FOCUS && (final == FINAL_H || final == FINAL_L) then
      t.(focus := final == FINAL_H)
    else if params == SCHEME && (final == FINAL_H || final == FINAL_L) then
      t.(scheme := final == FINAL_H)
    else t
  }

  /** The terminal after reading `s`, one control sequence or plain byte at a time. */
  function Interpret(s: seq<byte>, t: Terminal): Terminal
    decreases |s|
  {
    if s == [] then t
    else if |s| >= 2 && s[0] == ESC && s[1] == BRACKET then
      var j := ParamsEnd(s, 2);
      if j == |s| then t
      else if s[j] == ESC then Interpret(s[j..], t)
      else Interpret(s[j + 1..], Apply(t, s[2..j], s[j]))
    else Interpret(s[1..], t)
  }

  lemma {:induction false} DecimalNumber(n: nat)
    ensures AllDigits(Decimal(n)) && Number(Decimal(n)) == n
  {
    if n >= 10 {
      DecimalNumber(n / 10);
      var ds := Decimal(n);
      assert ds[..|ds| - 1] == Decimal(n / 10);
    }
  }

  lemma {:induction false} InterpretCsi(params: seq<byte>, final: byte, rest: seq<byte>, t: Terminal)
    requires forall i :: 0 <= i < |params| ==> IsParam(params[i])
    requires !IsParam(final) && final != ESC
    ensures Interpret(CSI + params + [final] + rest, t) == Interpret(rest, Apply(t, params, final))
  {
    var s := CSI + params + [final] + rest;
    var j := ParamsEnd(s, 2);
    var n := 2 + |params|;
    assert s[n] == final && forall k :: 2 <= k < n ==> s[k] == params[k - 2];
    assert j == n;
    assert s[2..j] == params && s[j + 1..] == rest;
  }

  lemma InterpretSwitch(on: bool, mode: seq<byte>, final: byte, rest: seq<byte>, t: Terminal)
    requires mode == FOCUS || mode == SCHEME
    requires final == FINAL_H || final == FINAL_L
    ensures Interpret(Switch(on, mode, final) + rest, t) == Interpret(rest, if on then Apply(t, mode, final) else t)
  {
    if on {
      InterpretCsi(mode, final, rest, t);
    } else {
      assert [] + rest == rest;
    }
  }

  function KeyboardOn(kbd: Keyboard, t: Terminal): Terminal {
    match kbd
    case Kitty(flags) => t.(kbdStack := t.kbdStack + [flags])
    case ModifyOtherKeys(level) => t.(modifyOtherKeys := level)
    case Legacy => t
  }

  function KeyboardOff(kbd: Keyboard, t: Terminal): Terminal {
    match kbd
    case Kitty(_) => t.(kbdStack := if t.kbdStack == [] then [] else t.kbdStack[..|t.kbdStack| - 1])
    case ModifyOtherKeys(_) => t.(modifyOtherKeys := 0)
    case Legacy => t
  }

  lemma InterpretEnableKeyboard(kbd: Keyboard, rest: seq<byte>, t: Terminal)
    ensures Interpret(EnableKeyboard(kbd) + rest, t) == Interpret(rest, KeyboardOn(kbd, t))
  {
    match kbd
    case Kitty(flags) =>
      DecimalNumber(flags);
      var params := [GREATER] + Decimal(flags);
      assert params[1..] == Decimal(flags);
      InterpretCsi(params, FINAL_U, rest, t);
    case ModifyOtherKeys(level) =>
      DecimalNumber(level);
      var params := MODIFY_KEYS + Decimal(level);
      assert params[3..] == Decimal(level);
      InterpretCsi(params, FINAL_M, rest, t);
    case Legacy =>
      assert [] + rest == rest;
  }

  lemma InterpretTeardownKeyboard(kbd: Keyboard, rest: seq<byte>, t: Terminal)
    ensures Interpret(TeardownKeyboard(kbd) + rest, t) == Interpret(rest, KeyboardOff(kbd, t))
  {
    match kbd
    case Kitty(_) => InterpretCsi([LESS], FINAL_U, rest, t);
    case ModifyOtherKeys(_) =>
      var params := MODIFY_KEYS + [ZERO];
      assert params[3..] == [ZERO] == Decimal(0);
      DecimalNumber(0);
      InterpretCsi(params, FINAL_M, rest, t);
    case Legacy =>
      assert [] + rest == rest;
  }

  /** The terminal with the negotiated features on. */
  function SwitchedOn(caps: EnabledCaps, t: Terminal): Terminal {
    KeyboardOn(caps.kbd, t).(focus := t.focus || caps.focusEvents, scheme := t.scheme || caps.colorScheme)
  }

  /** The terminal with them off. */
  function SwitchedOff(caps: EnabledCaps, t: Terminal): Terminal {
    KeyboardOff(caps.kbd, t.(focus := t.focus && !caps.focusEvents, scheme := t.scheme && !caps.colorScheme))
  }

  /** Between attach and detach the terminal has exactly the negotiated features on. */
  lemma EnableEffect(caps: EnabledCaps, rest: seq<byte>, t: Terminal)
    ensures Interpret(Enable(caps) + rest, t) ==
            Interpret(rest, SwitchedOn(caps, t))
  {
    var k, f, c := EnableKeyboard(caps.kbd), Switch(caps.focusEvents, FOCUS, FINAL_H), Switch(caps.colorScheme, SCHEME, FINAL_H);
    assert k + f + c + rest == k + (f + (c + rest));
    InterpretEnableKeyboard(caps.kbd, f + (c + rest), t);
    var t1 := KeyboardOn(caps.kbd, t);
    InterpretSwitch(caps.focusEvents, FOCUS, FINAL_H, c + rest, t1);
    InterpretSwitch(caps.colorScheme, SCHEME, FINAL_H, rest, if caps.focusEvents then Apply(t1, FOCUS, FINAL_H) else t1);
  }

  lemma TeardownEffect(caps: EnabledCaps, rest: seq<byte>, t: Terminal)
    ensures Interpret(Teardown(caps) + rest, t) ==
            Interpret(rest, SwitchedOff(caps, t))
  {
    var c, f, k := Switch(caps.colorScheme, SCHEME, FINAL_L), Switch(caps.focusEvents, FOCUS, FINAL_L), TeardownKeyboard(caps.kbd);
    assert c + f + k + rest == c + (f + (k + rest));
    InterpretSwitch(caps.colorScheme, SCHEME, FINAL_L, f + (k + rest), t);
    var t1 := if caps.colorScheme then Apply(t, SCHEME, FINAL_L) else t;
    InterpretSwitch(caps.focusEvents, FOCUS, FINAL_L, k + rest, t1);
    InterpretTeardownKeyboard(caps.kbd, rest, if caps.focusEvents then Apply(t1, FOCUS, FINAL_L) else t1);
  }

  lemma EnableSwitchesOn(caps: EnabledCaps)
    ensures forall t: Terminal :: Interpret(Enable(caps), t) == SwitchedOn(caps, t)
  {
    hide Enable, SwitchedOn;
    assert Enable(caps) + [] == Enable(caps);
    forall t: Terminal
      ensures Interpret(Enable(caps), t) == SwitchedOn(caps, t)
    {
      EnableEffect(caps, [], t);
    }
  }

  lemma TeardownSwitchesOff(caps: EnabledCaps)
    ensures forall t: Terminal :: Interpret(Teardown(caps), t) == SwitchedOff(caps, t)
  {
    hide Teardown, SwitchedOff;
    assert Teardown(caps) + [] == Teardown(caps);
    forall t: Terminal
      ensures Interpret(Teardown(caps), t) == SwitchedOff(caps, t)
    {
      TeardownEffect(caps, [], t);
    }
  }

  method EnableBytes(caps: EnabledCaps) returns (out: seq<byte>)
    ensures out == Enable(caps)
    ensures forall t: Terminal :: Interpret(out, t) == SwitchedOn(caps, t)
  {
    hide Decimal;
    out := [];
    match caps.kbd {
      case Kitty(flags) =>
        ConcatAssociative(CSI, [GREATER], Decimal(flags));
        out := CSI + [GREATER] + Decimal(flags) + [FINAL_U];
      case ModifyOtherKeys(level) =>
        ConcatAssociative(CSI, MODIFY_KEYS, Decimal(level));
        out := CSI + MODIFY_KEYS + Decimal(level) + [FINAL_M];
      case Legacy =>
    }
    assert out == EnableKeyboard(caps.kbd);
    hide EnableKeyboard;
    ghost var keyboard := out;
    if caps.focusEvents { out := out + (CSI + FOCUS + [FINAL_H]); }
    assert keyboard + [] == keyboard && out == keyboard + Switch(caps.focusEvents, FOCUS, FINAL_H);
    ghost var both := out;
    if caps.colorScheme { out := out + (CSI + SCHEME + [FINAL_H]); }
    assert both + [] == both && out == both + Switch(caps.colorScheme, SCHEME, FINAL_H);
    EnableSwitchesOn(caps);
  }

  method TeardownBytes(caps: EnabledCaps) returns (out: seq<byte>)
    ensures out == Teardown(caps)
    ensures forall t: Terminal :: Interpret(out, t) == SwitchedOff(caps, t)
  {
    out := [];
    if caps.colorScheme { out := out + (CSI + SCHEME + [FINAL_L]); }
    if caps.focusEvents { out := out + (CSI + FOCUS + [FINAL_L]); }
    match caps.kbd {
      case Kitty(_) => out := out + (CSI + [LESS] + [FINAL_U]);
      case ModifyOtherKeys(_) => out := out + (CSI + (MODIFY_KEYS + [ZERO]) + [FINAL_M]);
      case Legacy =>
    }
    TeardownSwitchesOff(caps);
  }

  /** Teardown undoes enable exactly when the modes it switches off were off to begin with; the
      keyboard-flag stack always comes back, whatever its depth and contents. */
  lemma TeardownInvertsEnable(caps: EnabledCaps, t: Terminal)
    ensures Interpret(Enable(caps) + Teardown(caps), t) == t <==>
            && (caps.focusEvents ==> !t.focus)
            && (caps.colorScheme ==> !t.scheme)
            && (caps.kbd.ModifyOtherKeys? ==> t.modifyOtherKeys == 0)
    ensures Interpret(Enable(caps) + Teardown(caps), t).kbdStack == t.kbdStack
  {
    EnableEffect(caps, Teardown(caps), t);
    var on := SwitchedOn(caps, t);
    TeardownEffect(caps, [], on);
    assert Teardown(caps) + [] == Teardown(caps);
    assert caps.kbd.Kitty? ==> on.kbdStack[..|on.kbdStack| - 1] == t.kbdStack;
  }
}
