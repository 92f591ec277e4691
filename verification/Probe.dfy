/** The outer-terminal probe: finding the DA1 reply in whatever bytes have arrived, and cutting
    the user's type-ahead off behind it. */
module Probe {
  import opened Prelude

  const QUESTION: byte := 0x3f
  const SEMICOLON: byte := 0x3b
  const FINAL_C: byte := 0x63
  const FOUR: byte := 0x34

  predicate IsParam(b: byte) { 0x20 <= b <= 0x3f }

  /** `out[i..e]` is a complete DA1 reply: `ESC [`, parameter bytes, `c`. */
  predicate IsDa1(out: seq<byte>, i: nat, e: nat) {
    && i + 3 <= e <= |out|
    && out[i] == ESC && out[i + 1] == BRACKET
    && (forall k :: i + 2 <= k < e - 1 ==> IsParam(out[k]))
    && out[e - 1] == FINAL_C
  }

  /** No DA1 reply starts before `n`. */
  ghost predicate NoDa1Before(out: seq<byte>, n: nat) {
    forall i: nat, e: nat :: i < n ==> !IsDa1(out, i, e)
  }

  /** `r` is the end of the leftmost complete DA1 reply, or none when there is none. */
  ghost predicate IsFirstDa1End(out: seq<byte>, r: Option<nat>) {
    match r
    case Some(e) => exists i: nat :: IsDa1(out, i, e) && NoDa1Before(out, i)
    case None => NoDa1Before(out, |out|)
  }

  function ParamsEnd(out: seq<byte>, j: nat): (k: nat)
    requires j <= |out|
    ensures j <= k <= |out|
    ensures forall m :: j <= m < k ==> IsParam(out[m])
    ensures k < |out| ==> !IsParam(out[k])
    decreases |out| - j
  {
    if j < |out| && IsParam(out[j]) then ParamsEnd(out, j + 1) else j
  }

  function Da1From(out: seq<byte>, i: nat): Option<nat>
    requires i <= |out|
    decreases |out| - i
  {
    if i + 1 >= |out| then None
    else
      var j := if out[i] == ESC && out[i + 1] == BRACKET then ParamsEnd(out, i + 2) else |out|;
      if j < |out| && out[j] == FINAL_C then Some(j + 1) else Da1From(out, i + 1)
  }

  function Da1End(out: seq<byte>): Option<nat> { Da1From(out, 0) }

  method FindDa1End(out: seq<byte>) returns (r: Option<nat>)
    ensures r == Da1End(out)
  {
    var i := 0;
    while i + 1 < |out|
      invariant 0 <= i <= |out|
      invariant Da1End(out) == Da1From(out, i)
    {
      if out[i] == ESC && out[i + 1] == BRACKET {
        var j := i + 2;
        while j < |out| && IsParam(out[j])
          invariant i + 2 <= j <= |out|
          invariant ParamsEnd(out, i + 2) == ParamsEnd(out, j)
        {
          j := j + 1;
        }
        if j < |out| && out[j] == FINAL_C {
          return Some(j + 1);
        }
      }
      i := i + 1;
    }
    r := None;
  }

  lemma {:induction false} Da1FromIsFirst(out: seq<byte>, i: nat)
    requires i <= |out| && NoDa1Before(out, i)
    ensures IsFirstDa1End(out, Da1From(out, i))
    decreases |out| - i
  {
    if i + 1 < |out| {
      if out[i] == ESC && out[i + 1] == BRACKET {
        var j := ParamsEnd(out, i + 2);
        if j < |out| && out[j] == FINAL_C {
          assert IsDa1(out, i, j + 1);
          return;
        }
        assert forall e: nat :: IsDa1(out, i, e) ==> !(e - 1 < j) && !(e - 1 > j);
      }
      Da1FromIsFirst(out, i + 1);
    }
  }

  /** The scan finds the leftmost complete DA1 reply. */
  lemma Da1EndIsFirst(out: seq<byte>)
    ensures IsFirstDa1End(out, Da1End(out))
  {
    Da1FromIsFirst(out, 0);
  }

  /** A reply cannot begin inside another: its `ESC` is not a parameter byte. */
  lemma Da1DoNotOverlap(out: seq<byte>, i: nat, e: nat, i': nat, e': nat)
    requires IsDa1(out, i, e) && IsDa1(out, i', e') && i' < i
    ensures e' <= i
  {
    assert forall k :: i' + 2 <= k < e' - 1 ==> out[k] != ESC;
  }

  lemma FirstDa1Unique(out: seq<byte>, i: nat, e: nat, i': nat, e': nat)
    requires IsDa1(out, i, e) && NoDa1Before(out, i)
    requires IsDa1(out, i', e') && NoDa1Before(out, i')
    ensures e == e'
  {
    assert i == i';
    assert !IsParam(out[e - 1]) && !IsParam(out[e' - 1]);
  }

  lemma EarlierDa1IsInside(a: seq<byte>, b: seq<byte>, i: nat, e: nat)
    requires IsDa1(a, i, e)
    ensures forall i': nat, e': nat :: i' < i && IsDa1(a + b, i', e') ==> IsDa1(a, i', e')
  {
    assert IsDa1(a + b, i, e);
    forall i': nat, e': nat | i' < i && IsDa1(a + b, i', e')
      ensures IsDa1(a, i', e')
    {
      Da1DoNotOverlap(a + b, i, e, i', e');
      assert forall k :: 0 <= k < e' ==> (a + b)[k] == a[k];
    }
  }

  /** Bytes that arrive later never move a DA1 boundary that was already there, although an
      earlier `ESC [` may still have been waiting for its final byte. */
  lemma Da1EndStable(a: seq<byte>, b: seq<byte>)
    requires Da1End(a).Some?
    ensures Da1End(a + b) == Da1End(a)
  {
    var s, e := a + b, Da1End(a).value;
    Da1EndIsFirst(a);
    Da1EndIsFirst(s);
    var i: nat :| IsDa1(a, i, e) && NoDa1Before(a, i);
    assert IsDa1(s, i, e);
    EarlierDa1IsInside(a, b, i, e);
    assert NoDa1Before(s, i);
    match Da1End(s)
    case Some(f) =>
      var k: nat :| IsDa1(s, k, f) && NoDa1Before(s, k);
      FirstDa1Unique(s, i, e, k, f);
    case None =>
  }

  /** The boundary is visible as soon as the bytes up to it have arrived. */
  lemma Da1EndLocal(s: seq<byte>, n: nat)
    requires Da1End(s).Some? && Da1End(s).value <= n <= |s|
    ensures Da1End(s[..n]) == Da1End(s)
  {
    var a, e := s[..n], Da1End(s).value;
    Da1EndIsFirst(s);
    Da1EndIsFirst(a);
    var i: nat :| IsDa1(s, i, e) && NoDa1Before(s, i);
    assert IsDa1(a, i, e);
    if Da1End(a).None? {
      assert false;
    }
    Da1EndStable(a, s[n..]);
    assert a + s[n..] == s;
  }

  // --- reading the reply ---

  /** One turn of the poll/read loop: bytes, a signal, or the end (deadline, error, EOF). */
  datatype ReadEvent = Bytes(chunk: seq<byte>) | Interrupted | Ended

  /** Everything the terminal sends over these events. */
  function Stream(events: seq<ReadEvent>): seq<byte> {
    if events == [] then []
    else (if events[0].Bytes? then events[0].chunk else []) + Stream(events[1..])
  }

  /** What arrives before the first `Ended`. */
  function BeforeEnd(events: seq<ReadEvent>): seq<byte> {
    if events == [] || events[0].Ended? then []
    else (if events[0].Bytes? then events[0].chunk else []) + BeforeEnd(events[1..])
  }

  lemma StreamStep(out: seq<byte>, events: seq<ReadEvent>, i: nat)
    requires i < |events|
    ensures events[i].Bytes? ==> out + Stream(events[i..]) == out + events[i].chunk + Stream(events[i + 1..])
    ensures !events[i].Bytes? ==> Stream(events[i..]) == Stream(events[i + 1..])
    ensures events[i].Bytes? ==> out + BeforeEnd(events[i..]) == out + events[i].chunk + BeforeEnd(events[i + 1..])
    ensures events[i].Interrupted? ==> BeforeEnd(events[i..]) == BeforeEnd(events[i + 1..])
    ensures events[i].Ended? ==> BeforeEnd(events[i..]) == []
  {
    assert events[i..][1..] == events[i + 1..];
  }

  /** The deadline has passed, or the terminal is gone. */
  predicate Gone(events: seq<ReadEvent>) { Ended in events }

  /** The reader has taken the first `n` events: none of the chunks before the last completed a
      reply, and the last did, or ended the reading, or was the last there is. */
  ghost predicate ReadUpTo(events: seq<ReadEvent>, n: nat) {
    && n <= |events|
    && (forall k :: 0 <= k < n ==> Da1End(BeforeEnd(events[..k])).None? && !Gone(events[..k]))
    && (Da1End(BeforeEnd(events[..n])).Some? || Gone(events[..n]) || n == |events|)
  }

  lemma {:induction false} BeforeEndSnoc(events: seq<ReadEvent>, e: ReadEvent)
    requires !Gone(events)
    ensures BeforeEnd(events + [e]) == BeforeEnd(events) + if e.Bytes? then e.chunk else []
  {
    if events == [] {
      assert (events + [e])[1..] == [];
    } else {
      assert (events + [e])[1..] == events[1..] + [e];
      assert events[0] in events && forall x :: x in events[1..] ==> x in events;
      BeforeEndSnoc(events[1..], e);
    }
  }

  /** Reads until the reply is complete and no further. */
  method ReadProbeReply(events: seq<ReadEvent>) returns (out: seq<byte>, unread: seq<ReadEvent>)
    ensures exists n: nat :: ReadUpTo(events, n) && out == BeforeEnd(events[..n]) && unread == events[n..]
    ensures out + Stream(unread) == Stream(events)
    ensures Da1End(out).Some? || out == BeforeEnd(events)
    ensures out <= BeforeEnd(events)
  {
    out := [];
    assert events[0..] == events && events[..0] == [];
    for i := 0 to |events|
      invariant out + Stream(events[i..]) == Stream(events)
      invariant out + BeforeEnd(events[i..]) == BeforeEnd(events)
      invariant out == BeforeEnd(events[..i])
      invariant forall k :: 0 <= k <= i ==> Da1End(BeforeEnd(events[..k])).None? && !Gone(events[..k])
    {
      StreamStep(out, events, i);
      BeforeEndSnoc(events[..i], events[i]);
      assert events[..i + 1] == events[..i] + [events[i]];
      match events[i]
      case Interrupted =>
      case Ended =>
        assert ReadUpTo(events, i + 1);
        return out, events[i + 1..];
      case Bytes(chunk) =>
        out := out + chunk;
        var end := FindDa1End(out);
        if end.Some? {
          assert ReadUpTo(events, i + 1);
          return out, events[i + 1..];
        }
    }
    unread := [];
    assert ReadUpTo(events, |events|) && events[|events|..] == [] && events[..|events|] == events;
  }

  function TypeAhead(reply: seq<byte>): seq<byte> {
    match Da1End(reply)
    case Some(end) => if end <= |reply| then reply[end..] else []
    case None => []
  }

  /** What was read behind the reply and what is unread make up the stream behind it. */
  lemma BehindTheReply(seen: seq<byte>, all: seq<byte>, out: seq<byte>, rest: seq<byte>)
    requires out + rest == all && out <= seen && seen <= all
    requires Da1End(out).Some? || out == seen
    ensures Da1End(seen).Some? ==>
              Da1End(all).Some? && Da1End(all).value <= |all| && TypeAhead(out) + rest == all[Da1End(all).value..]
    ensures Da1End(seen).None? ==> TypeAhead(out) == []
  {
    hide Da1From;
    if Da1End(out).Some? {
      Da1EndIsFirst(out);
      Da1EndStable(out, rest);
      Da1EndStable(out, seen[|out|..]);
      assert out + seen[|out|..] == seen;
    }
  }

  lemma {:induction false} BeforeEndIsPrefix(events: seq<ReadEvent>)
    ensures BeforeEnd(events) <= Stream(events)
  {
    if events != [] && !events[0].Ended? {
      BeforeEndIsPrefix(events[1..]);
    }
  }

  /** However the terminal's bytes are cut into reads: if its first complete DA1 reply arrives
      before the reader gives up, the type-ahead followed by what is still unread is exactly the
      stream behind that reply; otherwise nothing is forwarded. */
  method CaptureTypeAhead(events: seq<ReadEvent>) returns (ahead: seq<byte>, unread: seq<ReadEvent>)
    ensures var e := Da1End(Stream(events));
            if Da1End(BeforeEnd(events)).Some?
            then e.Some? && e.value <= |Stream(events)| && ahead + Stream(unread) == Stream(events)[e.value..]
            else ahead == []
  {
    hide Da1End, BeforeEnd, Stream, TypeAhead, ReadUpTo;
    var out;
    out, unread := ReadProbeReply(events);
    ahead := TypeAhead(out);
    BeforeEndIsPrefix(events);
    BehindTheReply(BeforeEnd(events), Stream(events), out, Stream(unread));
  }

  // --- Sixel ---

  /** Whether one of the `;`-separated fields of `params` is exactly `4`. */
  predicate ListsFour(params: seq<byte>) {
    exists k :: 0 <= k < |params| && params[k] == FOUR
             && (k == 0 || params[k - 1] == SEMICOLON)
             && (k + 1 == |params| || params[k + 1] == SEMICOLON)
  }

  predicate IsPrivateStart(s: seq<byte>, k: nat) {
    k + 3 <= |s| && s[k] == ESC && s[k + 1] == BRACKET && s[k + 2] == QUESTION
  }

  /** The last `ESC [ ?` before `n`, if any. */
  function LastPrivateStart(s: seq<byte>, n: nat): (r: Option<nat>)
    ensures r.Some? ==> r.value < n && IsPrivateStart(s, r.value)
    ensures forall k: nat :: k < n && IsPrivateStart(s, k) ==> r.Some? && k <= r.value
  {
    if n == 0 then None
    else if IsPrivateStart(s, n - 1) then Some(n - 1)
    else LastPrivateStart(s, n - 1)
  }

  function ListsSixel(reply: seq<byte>): bool {
    match Da1End(reply)
    case None => false
    case Some(end) =>
      if end > |reply| then false else
      match LastPrivateStart(reply[..end], end)
      case None => false
      case Some(start) => start + 3 <= end - 1 && ListsFour(reply[start + 3..end - 1])
  }

  /** The nearest `ESC [ ?` before `i` has a `4` among the fields from there to the end of the reply. */
  ghost predicate StrayFour(reply: seq<byte>, i: nat, e: nat)
    requires i + 3 <= e <= |reply|
  {
    exists k :: 0 <= k < i && IsPrivateStart(reply, k) && ListsFour(reply[k + 3..e - 1])
             && forall m :: k < m < i ==> !IsPrivateStart(reply, m)
  }

  lemma FirstDa1IsEnd(reply: seq<byte>, i: nat, e: nat)
    requires IsDa1(reply, i, e) && NoDa1Before(reply, i)
    ensures Da1End(reply) == Some(e)
  {
    Da1EndIsFirst(reply);
    if Da1End(reply).Some? {
      var f := Da1End(reply).value;
      var j: nat :| IsDa1(reply, j, f) && NoDa1Before(reply, j);
      FirstDa1Unique(reply, i, e, j, f);
    }
  }

  /** What the code reports for the first DA1 reply `reply[i..e]`: whether that reply's own
      attributes list `4` if it has the `ESC [ ?` form, else whether a foreign sequence's do. */
  lemma SixelMeaning(reply: seq<byte>, i: nat, e: nat)
    requires IsDa1(reply, i, e) && NoDa1Before(reply, i)
    ensures ListsSixel(reply) <==>
            if reply[i + 2] == QUESTION then ListsFour(reply[i + 3..e - 1]) else StrayFour(reply, i, e)
  {
    FirstDa1IsEnd(reply, i, e);
    hide Da1End, NoDa1Before;
    var prefix := reply[..e];
    assert forall k :: 0 <= k < e - 2 ==> (IsPrivateStart(prefix, k) <==> IsPrivateStart(reply, k));
    assert forall k :: i < k < e ==> reply[k] != ESC;
    assert IsPrivateStart(prefix, i) <==> reply[i + 2] == QUESTION;
    var last := LastPrivateStart(prefix, e);
    if last.Some? {
      assert reply[..e][last.value + 3..e - 1] == reply[last.value + 3..e - 1];
    }
  }

  /** The first DA1 reply has the standard form and lists `4` itself. */
  predicate OwnFour(reply: seq<byte>, i: nat, e: nat)
    requires IsDa1(reply, i, e)
  {
    reply[i + 2] == QUESTION && ListsFour(reply[i + 3..e - 1])
  }

  /** Sixel is reported exactly for replies that list it themselves if and only if the reply has the
      `ESC [ ?` form, or no sequence before it lends it a `4`. */
  lemma SixelFromOwnReplyIff(reply: seq<byte>, i: nat, e: nat)
    requires IsDa1(reply, i, e) && NoDa1Before(reply, i)
    ensures (ListsSixel(reply) <==> OwnFour(reply, i, e)) <==>
            (reply[i + 2] == QUESTION || !StrayFour(reply, i, e))
  {
    SixelMeaning(reply, i, e);
  }

  /** Both at once: here the DA1 reply is a bare `ESC [ c`, and an unfinished `ESC [ ? 1;4;` in
      front of it reports Sixel. */
  lemma SixelFromForeignSequence()
    ensures var reply: seq<byte> := [ESC, BRACKET, QUESTION, 0x31, SEMICOLON, FOUR, SEMICOLON, ESC, BRACKET, FINAL_C];
            IsDa1(reply, 7, 10) && NoDa1Before(reply, 7) && StrayFour(reply, 7, 10)
            && ListsSixel(reply) && !OwnFour(reply, 7, 10)
  {
    var reply: seq<byte> := [ESC, BRACKET, QUESTION, 0x31, SEMICOLON, FOUR, SEMICOLON, ESC, BRACKET, FINAL_C];
    assert !IsParam(reply[7]);
    assert forall i: nat, e: nat :: i < 7 && IsDa1(reply, i, e) ==> i == 0;
    assert NoDa1Before(reply, 7) && IsDa1(reply, 7, 10);
    var params := reply[3..9];
    assert params[2] == FOUR && params[1] == SEMICOLON && params[3] == SEMICOLON;
    assert IsPrivateStart(reply, 0) && ListsFour(reply[0 + 3..9]);
    SixelMeaning(reply, 7, 10);
  }
}
