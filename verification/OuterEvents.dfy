/** Stripping the outer terminal's focus and colour-scheme notifications out of a chunk of input. */
module OuterEvents {
  import opened Prelude
  import opened Probe
  import opened OuterTerminal

  datatype Event = FocusIn | FocusOut | ColorScheme(dark: bool)

  const FINAL_I: byte := 0x49
  const FINAL_O: byte := 0x4f
  const FINAL_N: byte := 0x6e
  const ONE: byte := 0x31
  const SCHEME_PREFIX: seq<byte> := [ESC, BRACKET, QUESTION, 0x39, 0x39, 0x37, SEMICOLON]
  const U32_MAX: nat := 0xffff_ffff

  /** `q` is one complete notification for `ev`; a colour scheme's number may have leading zeros. */
  predicate IsSequence(q: seq<byte>, ev: Event) {
    match ev
    case FocusIn => q == [ESC, BRACKET, FINAL_I]
    case FocusOut => q == [ESC, BRACKET, FINAL_O]
    case ColorScheme(dark) =>
      && |q| >= 9 && SCHEME_PREFIX <= q
      && AllDigits(q[7..|q| - 1]) && q[|q| - 1] == FINAL_N
      && Number(q[7..|q| - 1]) == if dark then 1 else 2
  }

  function DigitsEnd(s: seq<byte>, j: nat): (k: nat)
    requires j <= |s|
    ensures j <= k <= |s|
    ensures forall m :: j <= m < k ==> IsDigit(s[m])
    ensures k < |s| ==> !IsDigit(s[k])
    decreases |s| - j
  {
    if j < |s| && IsDigit(s[j]) then DigitsEnd(s, j + 1) else j
  }

  /** A colour-scheme notification at the front of `s`, with its length. */
  function SchemeAt(s: seq<byte>): Option<(Event, nat)> {
    if !(SCHEME_PREFIX <= s) then None
    else
      var j := DigitsEnd(s, 7);
      if j == 7 || j >= |s| || s[j] != FINAL_N then None
      else
        var n := Number(s[7..j]);
        if n > U32_MAX then None
        else if n == 1 then Some((ColorScheme(true), j + 1))
        else if n == 2 then Some((ColorScheme(false), j + 1))
        else None
  }

  /** The notification at the front of `s`, with its length. */
  function EventAt(s: seq<byte>): Option<(Event, nat)> {
    if |s| < 3 || s[0] != ESC || s[1] != BRACKET then None
    else if s[2] == FINAL_I then Some((FocusIn, 3))
    else if s[2] == FINAL_O then Some((FocusOut, 3))
    else SchemeAt(s)
  }

  datatype Scanned = Scanned(kept: seq<byte>, events: seq<Event>) {
    function Then(more: Scanned): Scanned {
      Scanned(kept + more.kept, events + more.events)
    }
  }

  /** What is recognised at the front of `s` is exactly a notification that `s` starts with. */
  lemma EventAtIsSequence(s: seq<byte>)
    ensures EventAt(s).Some? ==>
              var (ev, n) := EventAt(s).value; 3 <= n <= |s| && IsSequence(s[..n], ev)
  {
    if SchemeAt(s).Some? {
      var j := DigitsEnd(s, 7);
      assert s[..j + 1][7..j] == s[7..j];
      assert forall i :: 0 <= i < |s[7..j]| ==> IsDigit(s[7..j][i]);
    }
  }

  /** The first piece of non-empty `s`, a notification or else one byte, and its length. */
  function Front(s: seq<byte>): (r: (Scanned, nat))
    requires s != []
    ensures 1 <= r.1 <= |s|
  {
    EventAtIsSequence(s);
    match EventAt(s)
    case Some((ev, n)) => (Scanned([], [ev]), n)
    case None => (Scanned([s[0]], []), 1)
  }

  function Scan(s: seq<byte>): Scanned
    decreases |s|
  {
    if s == [] then Scanned([], []) else Front(s).0.Then(Scan(s[Front(s).1..]))
  }

  method ParseColorScheme(s: seq<byte>) returns (r: Option<(Event, nat)>)
    ensures r == SchemeAt(s)
  {
    if !(SCHEME_PREFIX <= s) { return None; }
    var rest := s[|SCHEME_PREFIX|..];
    var j := 0;
    while j < |rest| && IsDigit(rest[j])
      invariant 0 <= j <= |rest|
      invariant DigitsEnd(s, 7) == DigitsEnd(s, 7 + j)
    {
      j := j + 1;
    }
    if j == 0 || j >= |rest| || rest[j] != FINAL_N { return None; }
    assert rest[..j] == s[7..7 + j];
    assert forall i :: 0 <= i < j ==> IsDigit(rest[..j][i]);
    var n := Number(rest[..j]);
    if n > U32_MAX { return None; }
    match n {
      case 1 => r := Some((ColorScheme(true), |SCHEME_PREFIX| + j + 1));
      case 2 => r := Some((ColorScheme(false), |SCHEME_PREFIX| + j + 1));
      case _ => r := None;
    }
  }

  /** The scan of `buf` is what was found before `i` and what is still to be found behind it. */
  ghost predicate ScannedTo(buf: seq<byte>, i: nat, kept: seq<byte>, events: seq<Event>) {
    i <= |buf| && Scan(buf) == Scanned(kept, events).Then(Scan(buf[i..]))
  }

  lemma ThenAssociative(x: Scanned, y: Scanned, z: Scanned)
    ensures x.Then(y).Then(z) == x.Then(y.Then(z))
    ensures x.Then(Scanned([], [])) == x == Scanned([], []).Then(x)
  {
  }

  lemma ScannedToStart(buf: seq<byte>)
    ensures ScannedTo(buf, 0, [], [])
  {
    assert buf[0..] == buf;
    ThenAssociative(Scan(buf), Scan(buf), Scan(buf));
  }

  lemma ScannedToEnd(buf: seq<byte>, kept: seq<byte>, events: seq<Event>)
    requires ScannedTo(buf, |buf|, kept, events)
    ensures Scan(buf) == Scanned(kept, events)
  {
    ThenAssociative(Scanned(kept, events), Scanned(kept, events), Scanned(kept, events));
  }

  /** The tests the loop makes at index `i` decide what stands there. */
  lemma FrontAt(buf: seq<byte>, i: nat)
    requires i < |buf|
    ensures Front(buf[i..]) ==
            if i + 2 < |buf| && buf[i] == ESC && buf[i + 1] == BRACKET then
              if buf[i + 2] == FINAL_I then (Scanned([], [FocusIn]), 3)
              else if buf[i + 2] == FINAL_O then (Scanned([], [FocusOut]), 3)
              else match SchemeAt(buf[i..])
                   case Some((ev, n)) => (Scanned([], [ev]), n)
                   case None => (Scanned([buf[i]], []), 1)
            else (Scanned([buf[i]], []), 1)
  {
  }

  lemma {:induction false} ScanPiece(buf: seq<byte>, i: nat, kept: seq<byte>, events: seq<Event>) returns (piece: Scanned, n: nat)
    requires i < |buf| && ScannedTo(buf, i, kept, events)
    ensures (piece, n) == Front(buf[i..])
    ensures piece.kept == [] ==> ScannedTo(buf, i + n, kept, events + piece.events)
    ensures piece.events == [] ==> ScannedTo(buf, i + n, kept + piece.kept, events)
  {
    var s := buf[i..];
    piece, n := Front(s).0, Front(s).1;
    assert s[n..] == buf[i + n..];
    ThenAssociative(Scanned(kept, events), piece, Scan(buf[i + n..]));
    assert kept + [] == kept && events + [] == events;
  }

  lemma {:induction false} ScanStep(buf: seq<byte>, i: nat, kept: seq<byte>, events: seq<Event>)
    requires i < |buf| && ScannedTo(buf, i, kept, events)
    ensures if i + 2 < |buf| && buf[i] == ESC && buf[i + 1] == BRACKET then
              if buf[i + 2] == FINAL_I then ScannedTo(buf, i + 3, kept, events + [FocusIn])
              else if buf[i + 2] == FINAL_O then ScannedTo(buf, i + 3, kept, events + [FocusOut])
              else match SchemeAt(buf[i..])
                   case Some((ev, n)) => 0 < n <= |buf| - i && ScannedTo(buf, i + n, kept, events + [ev])
                   case None => ScannedTo(buf, i + 1, kept + [buf[i]], events)
            else ScannedTo(buf, i + 1, kept + [buf[i]], events)
  {
    hide Front, Scan, SchemeAt, ScannedTo;
    var piece, n := ScanPiece(buf, i, kept, events);
    FrontAt(buf, i);
  }

  /** The chunk buffer the scan rewrites. */
  class ChunkBuffer {
    var bytes: seq<byte>

    constructor (chunk: seq<byte>)
      ensures bytes == chunk
    {
      bytes := chunk;
    }

    method ScanOuterEvents() returns (events: seq<Event>)
      modifies this
      ensures Scanned(bytes, events) == Scan(old(bytes))
    {
      var buf := bytes;
      events := [];
      var kept: seq<byte> := [];
      var i := 0;
      hide Scan, ScannedTo, SchemeAt;
      ScannedToStart(buf);
      while i < |buf|
        invariant 0 <= i <= |buf|
        invariant ScannedTo(buf, i, kept, events)
      {
        ScanStep(buf, i, kept, events);
        if i + 2 < |buf| && buf[i] == ESC && buf[i + 1] == BRACKET {
          if buf[i + 2] == FINAL_I {
            events := events + [FocusIn];
            i := i + 3;
            continue;
          }
          if buf[i + 2] == FINAL_O {
            events := events + [FocusOut];
            i := i + 3;
            continue;
          }
          var scheme := ParseColorScheme(buf[i..]);
          if scheme.Some? {
            events := events + [scheme.value.0];
            i := i + scheme.value.1;
            continue;
          }
        }
        kept := kept + [buf[i]];
        i := i + 1;
      }
      ScannedToEnd(buf, kept, events);
      bytes := kept;
    }
  }

  // --- recognition ---

  /** A notification is recognised with any bytes behind it. */
  lemma SequenceIsRecognised(q: seq<byte>, ev: Event, rest: seq<byte>)
    requires IsSequence(q, ev)
    ensures EventAt(q + rest) == Some((ev, |q|))
  {
    var s := q + rest;
    if ev.ColorScheme? {
      var n := |q| - 1;
      var j := DigitsEnd(s, 7);
      assert forall m :: 7 <= m < n ==> s[m] == q[7..n][m - 7];
      assert s[n] == FINAL_N;
      assert j == n;
      assert s[7..j] == q[7..n];
      assert s[2] == QUESTION;
    }
  }

  /** Recognition is the same as starting with a notification: no other reading of the front of
      `s` exists, and none is missed. */
  lemma RecognisedIffSequence(s: seq<byte>, ev: Event, n: nat)
    ensures EventAt(s) == Some((ev, n)) <==> n <= |s| && IsSequence(s[..n], ev)
  {
    EventAtIsSequence(s);
    if n <= |s| && IsSequence(s[..n], ev) {
      SequenceIsRecognised(s[..n], ev, s[n..]);
      assert s[..n] + s[n..] == s;
    }
  }

  /** `ESC` occurs in a notification only at its front. */
  lemma EscOnlyFirst(q: seq<byte>, ev: Event)
    requires IsSequence(q, ev)
    ensures q[0] == ESC && forall k :: 0 < k < |q| ==> q[k] != ESC
  {
    if ev.ColorScheme? {
      forall k | 7 <= k < |q| - 1
        ensures q[k] != ESC
      {
        assert q[k] == q[7..|q| - 1][k - 7];
      }
    }
  }

  // --- leftmost tokenization ---

  datatype Token = Kept(b: byte) | Sequence(q: seq<byte>, ev: Event)

  /** `tokens` cuts `s` from the left: a notification wherever one starts, else a single byte. */
  ghost predicate Leftmost(tokens: seq<Token>, s: seq<byte>) {
    if tokens == [] then s == []
    else
      match tokens[0]
      case Kept(b) =>
        && s != [] && s[0] == b
        && (forall n: nat, ev: Event :: n <= |s| ==> !IsSequence(s[..n], ev))
        && Leftmost(tokens[1..], s[1..])
      case Sequence(q, ev) => q <= s && IsSequence(q, ev) && Leftmost(tokens[1..], s[|q|..])
  }

  function Flatten(tokens: seq<Token>): seq<byte> {
    if tokens == [] then []
    else (match tokens[0] case Kept(b) => [b] case Sequence(q, _) => q) + Flatten(tokens[1..])
  }

  /** The bytes and the events of a tokenization, in order. */
  function Sorted(tokens: seq<Token>): Scanned {
    if tokens == [] then Scanned([], [])
    else
      (match tokens[0] case Kept(b) => Scanned([b], []) case Sequence(_, ev) => Scanned([], [ev])).Then(Sorted(tokens[1..]))
  }

  lemma {:induction false} TokenizationExists(s: seq<byte>) returns (tokens: seq<Token>)
    ensures Leftmost(tokens, s)
    decreases |s|
  {
    if s == [] {
      return [];
    }
    EventAtIsSequence(s);
    match EventAt(s)
    case Some((ev, n)) =>
      var rest := TokenizationExists(s[n..]);
      tokens := [Sequence(s[..n], ev)] + rest;
      assert tokens[1..] == rest;
    case None =>
      forall n: nat, ev: Event | n <= |s|
        ensures !IsSequence(s[..n], ev)
      {
        RecognisedIffSequence(s, ev, n);
      }
      var rest := TokenizationExists(s[1..]);
      tokens := [Kept(s[0])] + rest;
      assert tokens[1..] == rest;
  }

  lemma FrontOfKept(s: seq<byte>)
    requires s != [] && forall n: nat, ev: Event :: n <= |s| ==> !IsSequence(s[..n], ev)
    ensures Front(s) == (Scanned([s[0]], []), 1)
  {
    if EventAt(s).Some? {
      EventAtIsSequence(s);
    }
  }

  lemma FrontOfSequence(q: seq<byte>, ev: Event, s: seq<byte>)
    requires q <= s && IsSequence(q, ev)
    ensures Front(s) == (Scanned([], [ev]), |q|)
  {
    SequenceIsRecognised(q, ev, s[|q|..]);
    assert q + s[|q|..] == s;
  }

  /** Every leftmost tokenization of the input interleaves back to the input, and the scan returns
      its bytes and its events. (`TokenizationExists`: there always is one.) */
  lemma {:induction false} ScanRefinesTokenization(tokens: seq<Token>, s: seq<byte>)
    requires Leftmost(tokens, s)
    ensures Flatten(tokens) == s
    ensures Scan(s) == Sorted(tokens)
  {
    hide Front, IsSequence;
    if tokens != [] {
      match tokens[0]
      case Kept(b) =>
        ScanRefinesTokenization(tokens[1..], s[1..]);
        FrontOfKept(s);
      case Sequence(q, ev) =>
        ScanRefinesTokenization(tokens[1..], s[|q|..]);
        FrontOfSequence(q, ev, s);
    }
  }

  // --- round trip ---

  predicate EscFree(s: seq<byte>) { ESC !in s }

  datatype Item = Text(bytes: seq<byte>) | Notify(q: seq<byte>, ev: Event)

  predicate ValidItem(item: Item) {
    match item case Text(bytes) => EscFree(bytes) case Notify(q, ev) => IsSequence(q, ev)
  }

  function Encode(items: seq<Item>): seq<byte> {
    if items == [] then []
    else (match items[0] case Text(bytes) => bytes case Notify(q, _) => q) + Encode(items[1..])
  }

  function Meaning(items: seq<Item>): Scanned {
    if items == [] then Scanned([], [])
    else
      (match items[0] case Text(bytes) => Scanned(bytes, []) case Notify(_, ev) => Scanned([], [ev])).Then(Meaning(items[1..]))
  }

  lemma {:induction false} ScanText(text: seq<byte>, rest: seq<byte>)
    requires EscFree(text)
    ensures Scan(text + rest) == Scanned(text, []).Then(Scan(rest))
    decreases |text|
  {
    if text == [] {
      assert text + rest == rest;
    } else {
      var s := text + rest;
      assert s[1..] == text[1..] + rest;
      assert Front(s) == (Scanned([text[0]], []), 1);
      ScanText(text[1..], rest);
      ThenAssociative(Scanned([text[0]], []), Scanned(text[1..], []), Scan(rest));
      assert [text[0]] + text[1..] == text;
    }
  }

  lemma {:induction false} ScanSequence(q: seq<byte>, ev: Event, rest: seq<byte>)
    requires IsSequence(q, ev)
    ensures Scan(q + rest) == Scanned([], [ev]).Then(Scan(rest))
  {
    SequenceIsRecognised(q, ev, rest);
    assert (q + rest)[|q|..] == rest;
  }

  /** Any interleaving of text without `ESC` and notifications is taken apart again. */
  lemma {:induction false} ScanRecoversItems(items: seq<Item>)
    requires forall i :: 0 <= i < |items| ==> ValidItem(items[i])
    ensures Scan(Encode(items)) == Meaning(items)
  {
    if items != [] {
      ScanRecoversItems(items[1..]);
      match items[0]
      case Text(bytes) => ScanText(bytes, Encode(items[1..]));
      case Notify(q, ev) => ScanSequence(q, ev, Encode(items[1..]));
    }
  }

  // --- chunk boundaries ---

  /** `p` is the beginning of some notification, but not all of it. */
  predicate IsProperPrefix(p: seq<byte>) {
    || (p != [] && p <= SCHEME_PREFIX)
    || (SCHEME_PREFIX < p && AllDigits(p[7..]) && Number(p[7..]) <= 2)
  }

  /** The chunk ends inside a notification. */
  predicate PartialTail(a: seq<byte>) {
    exists i :: 0 <= i < |a| && IsProperPrefix(a[i..])
  }

  lemma {:induction false} NumberPrefix(ds: seq<byte>, k: nat)
    requires k <= |ds| && forall i :: 0 <= i < |ds| ==> IsDigit(ds[i])
    ensures Number(ds[..k]) <= Number(ds)
  {
    if k < |ds| {
      var front := ds[..|ds| - 1];
      assert IsDigit(ds[|ds| - 1]);
      assert front[..k] == ds[..k];
      NumberPrefix(front, k);
    } else {
      assert ds[..k] == ds;
    }
  }

  /** Cutting a notification short leaves a proper prefix... */
  lemma CutSequence(p: seq<byte>, c: seq<byte>, ev: Event)
    requires p != [] && c != [] && IsSequence(p + c, ev)
    ensures IsProperPrefix(p)
  {
    var q := p + c;
    assert p == q[..|p|];
    if ev.ColorScheme? && |p| > 7 {
      var ds := q[7..|q| - 1];
      var k := |p| - 7;
      assert p[7..] == ds[..k];
      NumberPrefix(ds, k);
      assert AllDigits(p[7..]);
    }
  }

  lemma CompleteDigits(p: seq<byte>) returns (c: seq<byte>, ev: Event)
    requires SCHEME_PREFIX < p && AllDigits(p[7..]) && Number(p[7..]) <= 2
    ensures c != [] && EscFree(c) && IsSequence(p + c, ev)
    ensures p[0] == ESC && EscFree(p[1..])
  {
    var ds := p[7..];
    assert forall k :: 7 <= k < |p| ==> p[k] == ds[k - 7];
    if Number(ds) == 0 {
      c, ev := [ONE, FINAL_N], ColorScheme(true);
      assert (p + c)[7..|p + c| - 1] == ds + [ONE];
      assert (ds + [ONE])[..|ds|] == ds;
    } else {
      c, ev := [FINAL_N], ColorScheme(Number(ds) == 1);
      assert (p + c)[7..|p + c| - 1] == ds;
    }
  }

  /** ... and every proper prefix can be completed. */
  lemma CompletePrefix(p: seq<byte>) returns (c: seq<byte>, ev: Event)
    requires IsProperPrefix(p)
    ensures c != [] && EscFree(c) && IsSequence(p + c, ev)
    ensures p[0] == ESC && EscFree(p[1..])
  {
    if p <= SCHEME_PREFIX {
      c, ev := SCHEME_PREFIX[|p|..] + [ONE, FINAL_N], ColorScheme(true);
      var q := p + c;
      assert q == SCHEME_PREFIX + [ONE, FINAL_N];
      assert q[7..8] == [ONE];
      assert Number([ONE]) == 1;
    } else {
      c, ev := CompleteDigits(p);
    }
  }

  /** If the first piece of `a + b` lies within `a`, it is the first piece of `a`. */
  lemma SameFront(a: seq<byte>, b: seq<byte>)
    requires a != [] && Front(a + b).1 <= |a|
    ensures Front(a) == Front(a + b)
  {
    EventAtIsSequence(a + b);
    EventAtIsSequence(a);
    match EventAt(a + b)
    case Some((ev, n)) =>
      assert (a + b)[..n] == a[..n];
      RecognisedIffSequence(a, ev, n);
    case None =>
      if EventAt(a).Some? {
        var (ev, n) := EventAt(a).value;
        assert (a + b)[..n] == a[..n];
        RecognisedIffSequence(a + b, ev, n);
        assert false;
      }
  }

  /** One piece split off in front leaves the rest to be scanned the same way. */
  lemma {:induction false} ScanFront(a: seq<byte>, b: seq<byte>)
    requires a != [] && Front(a + b).1 <= |a|
    requires Scan(a[Front(a + b).1..] + b) == Scan(a[Front(a + b).1..]).Then(Scan(b))
    ensures Scan(a + b) == Scan(a).Then(Scan(b))
  {
    hide Front;
    SameFront(a, b);
    var (piece, n) := Front(a);
    assert (a + b)[n..] == a[n..] + b;
    ThenAssociative(piece, Scan(a[n..]), Scan(b));
  }

  lemma FrontWithin(a: seq<byte>, b: seq<byte>)
    requires a != [] && !PartialTail(a)
    ensures Front(a + b).1 <= |a|
  {
    EventAtIsSequence(a + b);
    assert a[0..] == a;
    if EventAt(a + b).Some? && EventAt(a + b).value.1 > |a| {
      var (ev, n) := EventAt(a + b).value;
      assert (a + b)[..n] == a + b[..n - |a|];
      CutSequence(a, b[..n - |a|], ev);
      assert false;
    }
  }

  lemma NoTailAfter(a: seq<byte>, n: nat)
    requires n <= |a| && !PartialTail(a)
    ensures !PartialTail(a[n..])
  {
    assert forall i :: 0 <= i < |a[n..]| ==> a[n..][i..] == a[n + i..];
  }

  /** A chunk that does not end inside a notification can be scanned on its own. */
  lemma {:induction false} ScanWholeChunk(a: seq<byte>, b: seq<byte>)
    requires !PartialTail(a)
    ensures Scan(a + b) == Scan(a).Then(Scan(b))
    decreases |a|
  {
    if a == [] {
      assert a + b == b;
    } else {
      FrontWithin(a, b);
      var n := Front(a + b).1;
      NoTailAfter(a, n);
      ScanWholeChunk(a[n..], b);
      ScanFront(a, b);
    }
  }

  /** Nothing recognised before an `ESC` reaches across it. */
  lemma {:induction false} ScanUpToEsc(a: seq<byte>, b: seq<byte>)
    requires b != [] && b[0] == ESC
    ensures Scan(a + b) == Scan(a).Then(Scan(b))
    decreases |a|
  {
    if a == [] {
      assert a + b == b;
    } else {
      EventAtIsSequence(a + b);
      assert (a + b)[|a|] == ESC;
      var n := Front(a + b).1;
      if EventAt(a + b).Some? {
        EscOnlyFirst((a + b)[..n], EventAt(a + b).value.0);
      }
      assert n <= |a|;
      ScanUpToEsc(a[n..], b);
      ScanFront(a, b);
    }
  }

  lemma UnfinishedIsNoEvent(p: seq<byte>, c: seq<byte>, ev: Event)
    requires c != [] && IsSequence(p + c, ev)
    ensures EventAt(p).None?
  {
    var q := p + c;
    SequenceIsRecognised(q, ev, []);
    assert q + [] == q;
    EventAtIsSequence(p);
    if EventAt(p).Some? {
      var (e, n) := EventAt(p).value;
      assert q[..n] == p[..n];
      RecognisedIffSequence(q, e, n);
      assert false;
    }
  }

  lemma UnfinishedIsKept(p: seq<byte>, c: seq<byte>, ev: Event)
    requires c != [] && IsSequence(p + c, ev)
    requires p != [] && p[0] == ESC && EscFree(p[1..])
    ensures Scan(p) == Scanned(p, [])
  {
    UnfinishedIsNoEvent(p, c, ev);
    assert Front(p) == (Scanned([p[0]], []), 1);
    hide IsSequence, EventAt, Front;
    ScanText(p[1..], []);
    assert p[1..] + [] == p[1..];
    assert [p[0]] + p[1..] == p;
  }

  lemma {:induction false} PartialTailMatters(a: seq<byte>, i: nat) returns (c: seq<byte>)
    requires i < |a| && IsProperPrefix(a[i..])
    ensures |Scan(a + c).events| == |Scan(a).Then(Scan(c)).events| + 1
  {
    var a0, p := a[..i], a[i..];
    var ev;
    c, ev := CompletePrefix(p);
    assert a0 + p == a && a0 + (p + c) == a + c;
    ScanUpToEsc(a0, p + c);
    ScanUpToEsc(a0, p);
    ScanSequence(p + c, ev, []);
    assert p + c + [] == p + c;
    UnfinishedIsKept(p, c, ev);
    ScanText(c, []);
    assert c + [] == c;
  }

  /** The scan of a chunk followed by anything is the scan of the chunk followed by the scan of
      the rest exactly when the chunk does not end inside a notification. */
  lemma {:induction false} ScanChunksIff(a: seq<byte>)
    ensures (forall b: seq<byte> :: Scan(a + b) == Scan(a).Then(Scan(b))) <==> !PartialTail(a)
  {
    if PartialTail(a) {
      var i :| 0 <= i < |a| && IsProperPrefix(a[i..]);
      var c := PartialTailMatters(a, i);
    } else {
      forall b: seq<byte>
        ensures Scan(a + b) == Scan(a).Then(Scan(b))
      {
        ScanWholeChunk(a, b);
      }
    }
  }
}
