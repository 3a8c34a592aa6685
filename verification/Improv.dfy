/** The Improv serial protocol of main/improv.c: frames on the wire, the byte-at-a-time
    parser, the commands it dispatches and the provisioning state they drive. */
module Improv {
  import opened Common

  const AUTHORIZED: byte := 2
  const PROVISIONING: byte := 3
  const PROVISIONED: byte := 4

  const FRAME_SIZE := 265

  /** The six letters, version 1 and the type of an RPC command. */
  const PREFIX: seq<byte> := ['I' as int, 'M' as int, 'P' as int, 'R' as int, 'O' as int, 'V' as int, 1, 3]

  /// Frames

  function Total(s: seq<byte>): nat {
    if s == [] then 0 else Total(s[..|s| - 1]) + s[|s| - 1]
  }

  function Sum8(s: seq<byte>): byte {
    Total(s) % 256
  }

  function Header(kind: byte, length: byte): seq<byte> {
    PREFIX[..7] + [kind, length]
  }

  /** A frame in `packet`'s layout. */
  function Framed(kind: byte, data: seq<byte>): (f: seq<byte>)
    requires |data| <= 255
    ensures |f| == |data| + 10
  {
    var body := Header(kind, |data|) + data;
    body + [Sum8(body)]
  }

  /** On the wire: the six letters, version 1, type, length, data, and the sum of all these
      modulo 256. */
  lemma FrameLayout(kind: byte, data: seq<byte>)
    requires |data| <= 255
    ensures var body := ['I' as int, 'M' as int, 'P' as int, 'R' as int, 'O' as int, 'V' as int, 1, kind, |data|] + data;
            Framed(kind, data) == body + [Total(body) % 256]
  {
    var body := ['I' as int, 'M' as int, 'P' as int, 'R' as int, 'O' as int, 'V' as int, 1, kind, |data|] + data;
    assert body == Header(kind, |data|) + data;
  }

  lemma {:induction false} TotalAppend(s: seq<byte>, t: seq<byte>)
    ensures Total(s + t) == Total(s) + Total(t)
    decreases |t|
  {
    if t == [] {
      assert s + t == s;
    } else {
      assert (s + t)[..|s + t| - 1] == s + t[..|t| - 1];
      TotalAppend(s, t[..|t| - 1]);
    }
  }

  lemma TotalUpdate(s: seq<byte>, i: nat, c: byte)
    requires i < |s|
    ensures Total(s[i := c]) == Total(s) - s[i] + c
  {
    assert s == s[..i] + ([s[i]] + s[i + 1..]);
    assert s[i := c] == s[..i] + ([c] + s[i + 1..]);
    TotalAppend(s[..i], [s[i]] + s[i + 1..]);
    TotalAppend(s[..i], [c] + s[i + 1..]);
    TotalAppend([s[i]], s[i + 1..]);
    TotalAppend([c], s[i + 1..]);
    assert Total([s[i]]) == s[i] && Total([c]) == c by {
      assert [s[i]][..0] == [] && [c][..0] == [];
    }
  }

  /// The parser, one byte at a time

  /** The length of the frame whose ninth byte is `announced`. */
  function FrameLength(announced: byte): nat {
    10 + announced as nat
  }

  /** What a completed frame amounts to. */
  datatype Event = BadSum | Frame(payload: seq<byte>)

  function Completed(f: seq<byte>): Event
    requires |f| >= 10 && |f| == FrameLength(f[8])
  {
    if Sum8(f[..|f| - 1]) != f[|f| - 1] then BadSum else Frame(f[9..9 + f[8]])
  }

  /** A partial frame the parser may hold: a proper prefix of the sync pattern, or the
      pattern followed by less than the announced frame. */
  predicate Partial(buf: seq<byte>) {
    if |buf| <= 8 then buf == PREFIX[..|buf|]
    else buf[..8] == PREFIX && |buf| < FrameLength(buf[8])
  }

  /** `improv_feed` without the clock: the bytes held afterwards and the frame completed. */
  function FeedByte(buf: seq<byte>, b: byte): (r: (seq<byte>, Option<Event>))
    requires Partial(buf)
    ensures Partial(r.0) && |r.0| < FRAME_SIZE
  {
    if |buf| < 8 && b != PREFIX[|buf|] then (if b == PREFIX[0] then [b] else [], None)
    else
      var next := buf + [b];
      if |next| >= 10 && |next| == FrameLength(next[8]) then ([], Some(Completed(next)))
      else
        assert |next| > 8 ==> next[..8] == PREFIX;
        (next, None)
  }

  function Events(e: Option<Event>): seq<Event> {
    if e.Some? then [e.value] else []
  }

  function FeedAll(buf: seq<byte>, s: seq<byte>): (r: (seq<byte>, seq<Event>))
    requires Partial(buf)
    ensures Partial(r.0)
    decreases |s|
  {
    if s == [] then (buf, [])
    else
      var (next, event) := FeedByte(buf, s[0]);
      var (last, rest) := FeedAll(next, s[1..]);
      (last, Events(event) + rest)
  }

  /// What it should find

  predicate SyncAt(s: seq<byte>, i: nat) {
    i + 8 <= |s| && s[i..i + 8] == PREFIX
  }

  /** The leftmost sync pattern. */
  function Leftmost(s: seq<byte>): (r: Option<nat>)
    ensures r.None? ==> forall i: nat :: !SyncAt(s, i)
    ensures r.Some? ==> SyncAt(s, r.value) && forall i: nat | i < r.value :: !SyncAt(s, i)
    decreases |s|
  {
    if SyncAt(s, 0) then Some(0)
    else if |s| < 8 then None
    else
      assert forall i: nat | i > 0 && SyncAt(s, i) :: SyncAt(s[1..], i - 1);
      assert forall i: nat | SyncAt(s[1..], i) :: SyncAt(s, i + 1);
      match Leftmost(s[1..])
      case None => None
      case Some(i) => Some(i + 1)
  }

  /** Does `s` hold the whole frame that begins at `i`? */
  predicate WholeAt(s: seq<byte>, i: nat) {
    i + 9 <= |s| && i + FrameLength(s[i + 8]) <= |s|
  }

  function EndAt(s: seq<byte>, i: nat): (end: nat)
    requires WholeAt(s, i)
    ensures i + 10 <= end <= |s|
  {
    i + FrameLength(s[i + 8])
  }

  function FrameAt(s: seq<byte>, i: nat): Event
    requires WholeAt(s, i)
  {
    Completed(s[i..EndAt(s, i)])
  }

  /** A scan of the whole stream: find the leftmost sync pattern, take the frame it
      announces, and go on behind it. */
  function Scan(s: seq<byte>): seq<Event>
    decreases |s|
  {
    var found := Leftmost(s);
    if found.None? || !WholeAt(s, found.value) then []
    else [FrameAt(s, found.value)] + Scan(s[EndAt(s, found.value)..])
  }

  lemma LeftmostIs(s: seq<byte>, i: nat)
    requires SyncAt(s, i) && forall j: nat | j < i :: !SyncAt(s, j)
    ensures Leftmost(s) == Some(i)
  {
  }

  lemma ByteRulesOutSync(s: seq<byte>, i: nat, k: nat)
    requires k < 8 && i + k < |s| && s[i + k] != PREFIX[k]
    ensures !SyncAt(s, i)
  {
    assert i + 8 <= |s| ==> s[i..i + 8][k] == s[i + k];
  }

  lemma SyncInTail(s: seq<byte>, n: nat, i: nat)
    requires n <= |s|
    ensures SyncAt(s[n..], i) <==> SyncAt(s, n + i)
  {
    if n + i + 8 <= |s| {
      assert s[n..][i..i + 8] == s[n + i..n + i + 8];
    }
  }

  /** Bytes at which no pattern starts can be dropped from the front. */
  lemma LeftmostSkip(s: seq<byte>, n: nat)
    requires n <= |s| && forall i: nat | i < n :: !SyncAt(s, i)
    ensures Leftmost(s) == match Leftmost(s[n..]) case None => None case Some(i) => Some(n + i)
  {
    hide Leftmost, SyncAt;
    var whole, tail := Leftmost(s), Leftmost(s[n..]);
    if tail.Some? {
      SyncInTail(s, n, tail.value);
    }
    if whole.Some? {
      SyncInTail(s, n, whole.value - n);
    }
  }

  lemma FrameInTail(s: seq<byte>, n: nat, i: nat)
    requires n <= |s| && WholeAt(s[n..], i)
    ensures WholeAt(s, n + i) && FrameAt(s, n + i) == FrameAt(s[n..], i)
    ensures s[EndAt(s, n + i)..] == s[n..][EndAt(s[n..], i)..]
  {
    hide Completed;
    assert s[n..][i..EndAt(s[n..], i)] == s[n + i..EndAt(s, n + i)];
  }

  lemma ScanSkip(s: seq<byte>, n: nat)
    requires n <= |s| && forall i: nat | i < n :: !SyncAt(s, i)
    ensures Scan(s) == Scan(s[n..])
  {
    LeftmostSkip(s, n);
    ScanSkipTo(s, n);
  }

  lemma ScanSkipTo(s: seq<byte>, n: nat)
    requires n <= |s|
    requires Leftmost(s) == match Leftmost(s[n..]) case None => None case Some(i) => Some(n + i)
    ensures Scan(s) == Scan(s[n..])
  {
    hide Leftmost, SyncAt, FrameAt, EndAt;
    var t := s[n..];
    if Leftmost(t).Some? {
      var i := Leftmost(t).value;
      assert WholeAt(t, i) == WholeAt(s, n + i);
      if WholeAt(t, i) {
        FrameInTail(s, n, i);
      }
    }
  }

  /** A whole frame in front is taken whole. */
  lemma ScanWhole(f: seq<byte>, rest: seq<byte>)
    requires |f| >= 10 && f[..8] == PREFIX && |f| == FrameLength(f[8])
    ensures Scan(f + rest) == [Completed(f)] + Scan(rest)
  {
    var s := f + rest;
    assert s[0..8] == f[..8];
    LeftmostIs(s, 0);
    hide Leftmost;
    assert s[0..|f|] == f && s[|f|..] == rest;
  }

  lemma OneLetterI(k: nat)
    requires 0 < k < 8
    ensures PREFIX[k] != PREFIX[0]
  {
  }

  /** The letter I occurs once in the pattern, so after a mismatch nothing but the
      mismatching byte itself can start one. */
  lemma ScanAfterMismatch(buf: seq<byte>, b: byte, rest: seq<byte>)
    requires |buf| < 8 && buf == PREFIX[..|buf|] && b != PREFIX[|buf|]
    ensures Scan(buf + [b] + rest) == Scan((if b == PREFIX[0] then [b] else []) + rest)
  {
    hide Scan, SyncAt;
    var s := buf + [b] + rest;
    var n := if b == PREFIX[0] then |buf| else |buf| + 1;
    forall i: nat | i < n
      ensures !SyncAt(s, i)
    {
      if i == 0 {
        ByteRulesOutSync(s, 0, |buf|);
      } else {
        if i < |buf| {
          OneLetterI(i);
          assert s[i] == PREFIX[i];
        }
        ByteRulesOutSync(s, i, 0);
      }
    }
    ScanSkip(s, n);
    assert s[n..] == (if b == PREFIX[0] then [b] else []) + rest;
  }

  lemma ScanUnfinished(buf: seq<byte>)
    requires Partial(buf)
    ensures Scan(buf) == []
  {
    if |buf| >= 8 {
      assert buf[0..8] == buf[..8];
      LeftmostIs(buf, 0);
    }
  }

  /** One byte takes exactly the frame it completes off the front of the scan. */
  lemma FeedByteScans(buf: seq<byte>, b: byte, rest: seq<byte>)
    requires Partial(buf)
    ensures var (next, event) := FeedByte(buf, b);
            Scan(buf + [b] + rest) == Events(event) + Scan(next + rest)
  {
    hide Scan, Completed;
    var (next, event) := FeedByte(buf, b);
    if |buf| < 8 && b != PREFIX[|buf|] {
      ScanAfterMismatch(buf, b, rest);
    } else if event.Some? {
      ScanWhole(buf + [b], rest);
      assert next + rest == rest;
    }
  }

  /** Feeding bytes one at a time finds exactly what the scan finds, whatever the parser
      already held. */
  lemma {:induction false} FeedAllScans(buf: seq<byte>, s: seq<byte>)
    requires Partial(buf)
    ensures FeedAll(buf, s).1 == Scan(buf + s)
    decreases |s|
  {
    hide Scan, Partial, FeedByte;
    if s == [] {
      assert buf + s == buf;
      ScanUnfinished(buf);
    } else {
      FeedAllScans(FeedByte(buf, s[0]).0, s[1..]);
      FeedByteScans(buf, s[0], s[1..]);
      assert buf + s == buf + [s[0]] + s[1..];
    }
  }

  /// Gaps between bytes

  datatype Timed = Timed(b: byte, at: int)

  datatype Parser = Parser(buf: seq<byte>, last: int)

  /** The bytes still held when a byte arrives at `now`. */
  function Kept(p: Parser, now: int): seq<byte> {
    if p.buf != [] && now - p.last > SECOND then [] else p.buf
  }

  function FeedTimed(p: Parser, s: seq<Timed>): (r: (Parser, seq<Event>))
    requires Partial(p.buf)
    ensures Partial(r.0.buf)
    decreases |s|
  {
    if s == [] then (p, [])
    else
      var (next, event) := FeedByte(Kept(p, s[0].at), s[0].b);
      var (last, rest) := FeedTimed(Parser(next, s[0].at), s[1..]);
      (last, Events(event) + rest)
  }

  function Bytes(s: seq<Timed>): seq<byte> {
    seq(|s|, i requires 0 <= i < |s| => s[i].b)
  }

  predicate Gapless(s: seq<Timed>) {
    forall i | 0 < i < |s| :: s[i].at - s[i - 1].at <= SECOND
  }

  /** The length of the first burst: the longest gapless prefix. */
  function Burst(s: seq<Timed>): (n: nat)
    requires s != []
    ensures 0 < n <= |s| && Gapless(s[..n])
    ensures n < |s| ==> s[n].at - s[n - 1].at > SECOND
  {
    if |s| == 1 || s[1].at - s[0].at > SECOND then 1
    else
      var n := Burst(s[1..]) + 1;
      assert s[..n] == [s[0]] + s[1..][..n - 1];
      assert forall i | 0 < i < n :: s[..n][i] == s[1..][i - 1];
      n
  }

  /** Each burst is scanned on its own. */
  function ScanBursts(s: seq<Timed>): seq<Event>
    decreases |s|
  {
    if s == [] then []
    else
      var n := Burst(s);
      Scan(Bytes(s[..n])) + ScanBursts(s[n..])
  }

  lemma GaplessTail(s: seq<Timed>)
    requires s != [] && Gapless(s)
    ensures Gapless(s[1..])
    ensures |s| > 1 ==> s[1].at - s[0].at <= SECOND
  {
    forall i | 0 < i < |s[1..]|
      ensures s[1..][i].at - s[1..][i - 1].at <= SECOND
    {
      assert s[i + 1].at - s[i].at <= SECOND;
    }
  }

  lemma {:induction false} FeedTimedGapless(p: Parser, s: seq<Timed>)
    requires Partial(p.buf) && Gapless(s)
    requires s != [] ==> p.buf == [] || s[0].at - p.last <= SECOND
    ensures FeedTimed(p, s).1 == FeedAll(p.buf, Bytes(s)).1
    ensures FeedTimed(p, s).0.buf == FeedAll(p.buf, Bytes(s)).0
    ensures s != [] ==> FeedTimed(p, s).0.last == s[|s| - 1].at
    decreases |s|
  {
    hide FeedByte, Partial;
    if s != [] {
      assert Kept(p, s[0].at) == p.buf && Bytes(s)[0] == s[0].b;
      var (next, event) := FeedByte(p.buf, s[0].b);
      assert Bytes(s)[1..] == Bytes(s[1..]);
      GaplessTail(s);
      FeedTimedGapless(Parser(next, s[0].at), s[1..]);
    }
  }

  lemma {:induction false} FeedTimedAppend(p: Parser, s: seq<Timed>, t: seq<Timed>)
    requires Partial(p.buf)
    ensures var (mid, first) := FeedTimed(p, s);
            var (last, second) := FeedTimed(mid, t);
            FeedTimed(p, s + t) == (last, first + second)
    decreases |s|
  {
    if s == [] {
      assert s + t == t;
      assert [] + FeedTimed(p, t).1 == FeedTimed(p, t).1;
    } else {
      var (next, event) := FeedByte(Kept(p, s[0].at), s[0].b);
      assert (s + t)[1..] == s[1..] + t;
      FeedTimedAppend(Parser(next, s[0].at), s[1..], t);
      var (mid, first) := FeedTimed(Parser(next, s[0].at), s[1..]);
      assert Events(event) + (first + FeedTimed(mid, t).1) == (Events(event) + first) + FeedTimed(mid, t).1;
    }
  }

  /** For every byte stream with any arrival times, the parser dispatches what the scan
      finds in each burst: a gap of more than a second separates independent parses. */
  lemma {:induction false} ParserFindsFrames(p: Parser, s: seq<Timed>)
    requires Partial(p.buf)
    requires p.buf == [] || (s != [] && s[0].at - p.last > SECOND)
    ensures FeedTimed(p, s).1 == ScanBursts(s)
    decreases |s|
  {
    hide FeedTimed, FeedAll, Scan;
    FedNothing(p);
    if s != [] {
      var n := Burst(s);
      var mid := FeedTimed(Parser([], p.last), s[..n]).0;
      FeedBurst(p, s);
      FeedAllScans([], Bytes(s[..n]));
      assert [] + Bytes(s[..n]) == Bytes(s[..n]);
      if n < |s| {
        ParserFindsFrames(mid, s[n..]);
      } else {
        FedNothing(mid);
      }
    }
  }

  /** The first burst starts from an idle parser, and the rest goes on from there. */
  lemma FeedBurst(p: Parser, s: seq<Timed>)
    requires Partial(p.buf) && s != [] && (p.buf == [] || s[0].at - p.last > SECOND)
    ensures var n := Burst(s);
            var mid, first := FeedTimed(Parser([], p.last), s[..n]).0, FeedAll([], Bytes(s[..n]));
            && mid == Parser(first.0, s[n - 1].at)
            && FeedTimed(p, s).0 == FeedTimed(mid, s[n..]).0
            && FeedTimed(p, s).1 == first.1 + FeedTimed(mid, s[n..]).1
  {
    var n := Burst(s);
    var idle := Parser([], p.last);
    ForgetsAfterGap(p, s);
    hide FeedTimed, FeedAll, Partial, Bytes;
    assert s == s[..n] + s[n..];
    FeedTimedAppend(idle, s[..n], s[n..]);
    FeedTimedGapless(idle, s[..n]);
  }

  lemma FedNothing(p: Parser)
    requires Partial(p.buf)
    ensures FeedTimed(p, []) == (p, []) && FeedAll(p.buf, Bytes([])) == (p.buf, [])
  {
  }

  lemma ForgetsAfterGap(p: Parser, s: seq<Timed>)
    requires Partial(p.buf) && s != [] && (p.buf == [] || s[0].at - p.last > SECOND)
    ensures FeedTimed(p, s) == FeedTimed(Parser([], p.last), s)
  {
  }

  /// The prefix counter

  predicate SyncSuffix(s: seq<byte>, k: nat) {
    k <= |s| && k <= 8 && s[|s| - k..] == PREFIX[..k]
  }

  /** Is `n` the length of the longest suffix of `s` that is a prefix of the pattern? */
  ghost predicate LongestSuffix(s: seq<byte>, n: nat) {
    SyncSuffix(s, n) && forall k: nat | SyncSuffix(s, k) :: k <= n
  }

  lemma {:induction false} FeedAllSnoc(buf: seq<byte>, s: seq<byte>, b: byte)
    requires Partial(buf)
    ensures FeedAll(buf, s + [b]).0 == FeedByte(FeedAll(buf, s).0, b).0
    decreases |s|
  {
    if s == [] {
      assert (s + [b])[1..] == [];
    } else {
      assert (s + [b])[1..] == s[1..] + [b];
      FeedAllSnoc(FeedByte(buf, s[0]).0, s[1..], b);
    }
  }

  /** What one byte does to the longest suffix: a longer one extends a shorter one. */
  lemma SuffixSnoc(s: seq<byte>, b: byte, k: nat)
    requires 0 < k <= 8
    ensures SyncSuffix(s + [b], k) <==> SyncSuffix(s, k - 1) && PREFIX[k - 1] == b
  {
    if k <= |s| + 1 {
      assert (s + [b])[|s| + 1 - k..] == s[|s| - (k - 1)..] + [b];
      assert PREFIX[..k] == PREFIX[..k - 1] + [PREFIX[k - 1]];
      if PREFIX[..k] == s[|s| - (k - 1)..] + [b] {
        assert PREFIX[..k][k - 1] == b;
        assert PREFIX[..k - 1] == PREFIX[..k][..k - 1];
      }
    }
  }

  /** A longer matching suffix excludes a shorter one, which would hold a second I. */
  lemma SuffixUnique(s: seq<byte>, j: nat, k: nat)
    requires SyncSuffix(s, k) && 0 < j < k
    ensures !SyncSuffix(s, j)
  {
    OneLetterI(k - j);
    assert s[|s| - k..][k - j] == PREFIX[..k][k - j];
    assert s[|s| - j..][0] == s[|s| - j] && PREFIX[..j][0] == PREFIX[0];
  }

  /** The longest matching suffix of `s` and the next byte determine the next one. */
  lemma LongestSuffixStep(s: seq<byte>, b: byte, n: nat)
    requires n < 8 && SyncSuffix(s, n) && forall k: nat | SyncSuffix(s, k) :: k <= n
    ensures var next := if b == PREFIX[n] then n + 1 else if b == PREFIX[0] then 1 else 0;
            SyncSuffix(s + [b], next) && forall k: nat | SyncSuffix(s + [b], k) :: k <= next
  {
    hide SyncSuffix;
    assert SyncSuffix(s + [b], 0) && SyncSuffix(s, 0) by { SuffixNothing(s); SuffixNothing(s + [b]); }
    forall k: nat | k > 0 && SyncSuffix(s + [b], k)
      ensures SyncSuffix(s, k - 1) && PREFIX[k - 1] == b && (k == n + 1 || k == 1)
    {
      SuffixBound(s + [b], k);
      SuffixSnoc(s, b, k);
      if 0 < k - 1 < n {
        SuffixUnique(s, k - 1, n);
      }
    }
    SuffixSnoc(s, b, n + 1);
    SuffixSnoc(s, b, 1);
  }

  lemma SuffixNothing(s: seq<byte>)
    ensures SyncSuffix(s, 0)
  {
  }

  lemma SuffixBound(s: seq<byte>, k: nat)
    requires SyncSuffix(s, k)
    ensures k <= 8
  {
  }

  lemma NoWholeSuffix(s: seq<byte>)
    requires Leftmost(s).None?
    ensures !SyncSuffix(s, 8)
  {
    hide Leftmost;
    if |s| >= 8 {
      assert !SyncAt(s, |s| - 8) && s[|s| - 8..|s|] == s[|s| - 8..] && PREFIX[..8] == PREFIX;
    }
  }

  lemma NoSyncInPrefix(s: seq<byte>, n: nat)
    requires Leftmost(s).None? && n <= |s|
    ensures Leftmost(s[..n]).None?
  {
    hide Leftmost;
    forall i: nat
      ensures !SyncAt(s[..n], i)
    {
      assert !SyncAt(s, i);
      assert i + 8 <= n ==> s[..n][i..i + 8] == s[i..i + 8];
    }
    NoSync(s[..n]);
  }

  lemma {:induction false} CounterBeforeSync(s: seq<byte>)
    requires Leftmost(s).None?
    ensures LongestSuffix(s, |FeedAll([], s).0|) && |FeedAll([], s).0| < 8
    decreases |s|
  {
    hide Leftmost, FeedAll, SyncSuffix, SyncAt;
    if s == [] {
      FeedNothing([]);
      SuffixNothing(s);
      forall k: nat | SyncSuffix(s, k)
        ensures k == 0
      {
        SuffixLength(s, k);
      }
    } else {
      var init, b := s[..|s| - 1], s[|s| - 1];
      assert s == init + [b];
      NoSyncInPrefix(s, |s| - 1);
      CounterBeforeSync(init);
      FeedAllSnoc([], init, b);
      LongestSuffixStep(init, b, |FeedAll([], init).0|);
      NoWholeSuffix(s);
    }
  }

  lemma SuffixLength(s: seq<byte>, k: nat)
    requires SyncSuffix(s, k)
    ensures k <= |s|
  {
  }

  lemma FeedNothing(buf: seq<byte>)
    requires Partial(buf)
    ensures FeedAll(buf, []) == (buf, [])
  {
  }

  lemma NoSync(s: seq<byte>)
    requires forall i: nat :: !SyncAt(s, i)
    ensures Leftmost(s).None?
  {
  }

  /** The bytes behind the last whole frame. */
  function Unframed(s: seq<byte>): seq<byte>
    decreases |s|
  {
    var found := Leftmost(s);
    if found.None? || !WholeAt(s, found.value) then s
    else Unframed(s[EndAt(s, found.value)..])
  }

  lemma {:induction false} UnframedIsTail(s: seq<byte>) returns (front: seq<byte>)
    ensures s == front + Unframed(s)
    decreases |s|
  {
    hide Leftmost, WholeAt, EndAt;
    var found := Leftmost(s);
    if found.Some? && WholeAt(s, found.value) {
      var end := EndAt(s, found.value);
      front := UnframedIsTail(s[end..]);
      assert s == s[..end] + s[end..];
      front := s[..end] + front;
    } else {
      front := [];
    }
  }

  lemma ShortSuffix(front: seq<byte>, rest: seq<byte>, k: nat)
    requires k <= |rest|
    ensures SyncSuffix(front + rest, k) <==> SyncSuffix(rest, k)
  {
    var s := front + rest;
    assert s[|s| - k..] == rest[|rest| - k..];
  }

  lemma {:induction false} FeedAllAppend(buf: seq<byte>, s: seq<byte>, t: seq<byte>)
    requires Partial(buf)
    ensures FeedAll(buf, s + t).0 == FeedAll(FeedAll(buf, s).0, t).0
    decreases |s|
  {
    if s == [] {
      assert s + t == t;
    } else {
      assert (s + t)[1..] == s[1..] + t;
      FeedAllAppend(FeedByte(buf, s[0]).0, s[1..], t);
    }
  }

  /** The byte that completes the leftmost pattern leaves exactly the pattern held. */
  lemma ReachesSync(s: seq<byte>, i: nat)
    requires Leftmost(s) == Some(i)
    ensures FeedAll([], s[..i + 8]).0 == PREFIX
  {
    hide Leftmost, FeedAll, SyncSuffix;
    var init := s[..i + 7];
    forall j: nat
      ensures !SyncAt(init, j)
    {
      if j + 8 <= |init| {
        assert init[j..j + 8] == s[j..j + 8];
        assert !SyncAt(s, j);
      }
    }
    NoSync(init);
    CounterBeforeSync(init);
    assert SyncSuffix(init, 7) by { SevenOf(s, i); }
    assert s[i..i + 8][7] == s[i + 7];
    assert s[..i + 8] == init + [PREFIX[7]];
    FeedAllSnoc([], init, PREFIX[7]);
    assert PREFIX[..7] + [PREFIX[7]] == PREFIX;
  }

  lemma SevenOf(s: seq<byte>, i: nat)
    requires SyncAt(s, i)
    ensures SyncSuffix(s[..i + 7], 7)
  {
    assert s[..i + 7][i..] == s[i..i + 8][..7];
  }

  /** Behind a pattern, bytes are kept until they complete the frame. */
  lemma {:induction false} FeedInFrame(buf: seq<byte>, t: seq<byte>)
    requires Partial(buf) && |buf| >= 8
    requires var all := buf + t; |all| >= 9 ==> |all| <= FrameLength(all[8])
    ensures var all := buf + t;
            FeedAll(buf, t).0 == if |all| >= 9 && |all| == FrameLength(all[8]) then [] else all
    decreases |t|
  {
    hide Completed;
    if t == [] {
      assert buf + t == buf;
    } else {
      var (next, event) := FeedByte(buf, t[0]);
      assert buf + t == (buf + [t[0]]) + t[1..];
      if event.None? {
        FeedInFrame(next, t[1..]);
      }
    }
  }

  lemma JoinSlices<T>(s: seq<T>, i: nat, j: nat, k: nat)
    requires i <= j <= k <= |s|
    ensures s[i..j] + s[j..k] == s[i..k] && s[0..j] == s[..j] && s[0..k] == s[..k]
  {
  }

  /** What the parser holds after the first whole frame does not depend on what came
      before, and an unfinished frame is held from its pattern on. */
  lemma HeldFromSync(s: seq<byte>, i: nat)
    requires Leftmost(s) == Some(i)
    ensures FeedAll([], s).0 == if WholeAt(s, i) then FeedAll([], s[EndAt(s, i)..]).0 else s[i..]
  {
    hide Leftmost, FeedAll;
    ReachesSync(s, i);
    assert s[i..i + 8] == PREFIX;
    var end := if WholeAt(s, i) then EndAt(s, i) else |s|;
    var missing := s[i + 8..end];
    JoinSlices(s, i, i + 8, end);
    assert |s[i..end]| >= 9 ==> s[i..end][8] == s[i + 8];
    FeedInFrame(PREFIX, missing);
    FeedAllAppend([], s[..i + 8], missing);
    JoinSlices(s, 0, i + 8, end);
    if WholeAt(s, i) {
      FeedAllAppend([], s[..end], s[end..]);
      assert s[..end] + s[end..] == s;
    } else {
      assert s[..end] == s;
    }
  }

  /** For every stream, what the parser holds depends only on the bytes behind the last
      whole frame. Once they contain a pattern, everything from there on is held; until
      then the counter is the length of their longest suffix that is a prefix of the
      pattern. */
  lemma {:induction false} CounterIsLongestSuffix(s: seq<byte>)
    ensures var buf, rest := FeedAll([], s).0, Unframed(s);
            && buf == FeedAll([], rest).0
            && match Leftmost(rest)
               case Some(i) => buf == rest[i..]
               case None => |buf| < 8 && LongestSuffix(rest, |buf|)
    decreases |s|
  {
    hide FeedAll, LongestSuffix;
    match Leftmost(s)
    case None => CounterBeforeSync(s);
    case Some(i) =>
      HeldFromSync(s, i);
      if WholeAt(s, i) {
        CounterIsLongestSuffix(s[EndAt(s, i)..]);
      }
  }

  /** Does a prefix of the pattern begin in the last whole frame and end the stream? */
  ghost predicate Straddles(s: seq<byte>) {
    exists k: nat :: |Unframed(s)| < k && SyncSuffix(s, k)
  }

  /** Between frames the counter covers the whole stream, frames included, if and only
      if no prefix of the pattern straddles the end of the last frame. */
  lemma CounterCoversStream(s: seq<byte>)
    requires Leftmost(Unframed(s)).None?
    ensures LongestSuffix(s, |FeedAll([], s).0|) <==> !Straddles(s)
  {
    hide FeedAll, Leftmost, Unframed;
    var rest := Unframed(s);
    var n := |FeedAll([], s).0|;
    CounterIsLongestSuffix(s);
    var front := UnframedIsTail(s);
    forall k: nat | k <= |rest|
      ensures SyncSuffix(s, k) <==> SyncSuffix(rest, k)
    {
      ShortSuffix(front, rest, k);
    }
  }

  /** A frame whose checksum byte is the letter I leaves the counter at 0, although that
      byte is a prefix of the pattern. */
  lemma ChecksumCanStraddle()
    ensures var f := Framed(3, [103]);
            FeedAll([], f).0 == [] && Straddles(f) && !LongestSuffix(f, 0)
  {
    hide FeedAll, Leftmost, Unframed, Completed, FeedByte;
    var f := Framed(3, [103]);
    FramedParts([103]);
    assert f == PREFIX + [1, 103, 73] by { FrameEndingInI(); }
    assert f[0..8] == PREFIX;
    FrameOnly(f);
    assert f[|f| - 1..] == PREFIX[..1];
    assert SyncSuffix(f, 1);
    CounterIsLongestSuffix(f);
    CounterBeforeSync([]) by { NoSync([]); }
    assert Leftmost([]).None? by { NoSync([]); }
  }

  lemma TotalNext(s: seq<byte>, i: nat)
    requires i < |s|
    ensures Total(s[..i + 1]) == Total(s[..i]) + s[i]
  {
    assert s[..i + 1][..i] == s[..i];
  }

  lemma FrameEndingInI()
    ensures Framed(3, [103]) == PREFIX + [1, 103, 73]
  {
    var body := Header(3, 1) + [103];
    assert body == PREFIX + [1, 103];
    assert Total(body[..0]) == 0;
    hide Total;
    TotalNext(body, 0);
    TotalNext(body, 1);
    TotalNext(body, 2);
    TotalNext(body, 3);
    TotalNext(body, 4);
    TotalNext(body, 5);
    TotalNext(body, 6);
    TotalNext(body, 7);
    TotalNext(body, 8);
    TotalNext(body, 9);
    assert body[..10] == body;
    assert Total(body) == 585;
  }

  /** A stream that is one whole frame leaves nothing behind it. */
  lemma FrameOnly(f: seq<byte>)
    requires |f| >= 10 && f[..8] == PREFIX && |f| == FrameLength(f[8])
    ensures Unframed(f) == []
  {
    assert f[0..8] == f[..8];
    LeftmostIs(f, 0);
    hide Leftmost;
    NoSync([]);
    assert f[|f|..] == [];
  }

  /// The counter since the last gap

  /** The last burst: what arrived since the last gap of more than a second. */
  function SinceGap(s: seq<Timed>): seq<Timed>
    decreases |s|
  {
    if s == [] || Burst(s) == |s| then s else SinceGap(s[Burst(s)..])
  }

  /** Does `last` come more than a second after `front`? */
  predicate GapBetween(front: seq<Timed>, last: seq<Timed>) {
    front != [] ==> last != [] && last[0].at - front[|front| - 1].at > SECOND
  }

  lemma GapBetweenJoin(a: seq<Timed>, b: seq<Timed>, last: seq<Timed>)
    requires GapBetween(a, b + last) && GapBetween(b, last)
    ensures GapBetween(a + b, last)
  {
    if b == [] {
      assert a + b == a && b + last == last;
    }
  }

  lemma {:induction false} SinceGapIsLastBurst(s: seq<Timed>) returns (front: seq<Timed>)
    ensures s == front + SinceGap(s) && Gapless(SinceGap(s)) && GapBetween(front, SinceGap(s))
    decreases |s|
  {
    hide Gapless, GapBetween, Burst;
    front := [];
    NoGapYet(s);
    if s != [] {
      var n := Burst(s);
      var head, tail := s[..n], s[n..];
      assert s == head + tail;
      if n < |s| {
        assert GapBetween(head, tail) by { BurstEndsInGap(s); }
        var more := SinceGapIsLastBurst(tail);
        GapBetweenJoin(head, more, SinceGap(tail));
        front := head + more;
        JoinAgain(head, more, SinceGap(tail));
      }
    }
  }

  lemma JoinAgain<T>(a: seq<T>, b: seq<T>, c: seq<T>)
    ensures a + (b + c) == (a + b) + c
  {
  }

  lemma BurstEndsInGap(s: seq<Timed>)
    requires s != [] && Burst(s) < |s|
    ensures GapBetween(s[..Burst(s)], s[Burst(s)..])
  {
  }

  lemma NoGapYet(s: seq<Timed>)
    ensures GapBetween([], s) && (s == [] || Burst(s) == |s| ==> Gapless(s))
  {
    assert s != [] && Burst(s) == |s| ==> s[..Burst(s)] == s;
  }

  /** With any arrival times, what the parser holds is decided by the bytes since the last
      gap, as `CounterIsLongestSuffix` says. */
  lemma {:induction false} CounterSinceGap(p: Parser, s: seq<Timed>)
    requires Partial(p.buf)
    requires p.buf == [] || (s != [] && s[0].at - p.last > SECOND)
    ensures var buf, rest := FeedTimed(p, s).0.buf, Unframed(Bytes(SinceGap(s)));
            match Leftmost(rest)
            case Some(i) => buf == rest[i..]
            case None => |buf| < 8 && LongestSuffix(rest, |buf|)
    decreases |s|
  {
    hide Leftmost, LongestSuffix, Unframed, FeedAll;
    CounterIsLongestSuffix(Bytes(SinceGap(s)));
    HeldSinceGap(p, s);
  }

  lemma {:induction false} HeldSinceGap(p: Parser, s: seq<Timed>)
    requires Partial(p.buf)
    requires p.buf == [] || (s != [] && s[0].at - p.last > SECOND)
    ensures FeedTimed(p, s).0.buf == FeedAll([], Bytes(SinceGap(s))).0
    decreases |s|
  {
    hide FeedTimed, FeedAll;
    FedNothing(p);
    if s != [] {
      var n := Burst(s);
      var mid := FeedTimed(Parser([], p.last), s[..n]).0;
      FeedBurst(p, s);
      if n < |s| {
        HeldSinceGap(mid, s[n..]);
      } else {
        assert s[..n] == s;
        FedNothing(mid);
      }
    }
  }

  /// Printing and parsing

  lemma FramedParts(data: seq<byte>)
    requires |data| <= 255
    ensures var f := Framed(3, data);
            && f[..8] == PREFIX && f[8] == |data| && Completed(f) == Frame(data)
  {
    var f := Framed(3, data);
    assert f[..|f| - 1] == Header(3, |data|) + data;
    assert f[9..9 + |data|] == data;
  }

  /** Noise without a sync pattern never hides the frame behind it, and the frame's
      payload is handed on once and unchanged whatever follows. */
  lemma NoiseNeverHidesAFrame(noise: seq<byte>, data: seq<byte>, rest: seq<byte>)
    requires |data| <= 255 && Leftmost(noise).None?
    ensures FeedAll([], noise + Framed(3, data) + rest).1 == [Frame(data)] + Scan(rest)
  {
    hide Scan, Leftmost, FeedAll;
    var f := Framed(3, data);
    FramedParts(data);
    var s := noise + (f + rest);
    var n := |noise|;
    forall i: nat | i < n
      ensures !SyncAt(s, i)
    {
      if i + 8 <= n {
        assert noise[i..i + 8] == s[i..i + 8];
        assert !SyncAt(noise, i);
      } else {
        OneLetterI(n - i);
        assert s[n] == f[..8][0];
        ByteRulesOutSync(s, i, n - i);
      }
    }
    ScanSkip(s, n);
    assert s[n..] == f + rest;
    ScanWhole(f, rest);
    FeedAllScans([], s);
    assert [] + s == s == noise + f + rest;
  }

  /** An idle parser gives back exactly what `packet` framed. */
  lemma FrameRoundTrip(data: seq<byte>)
    requires |data| <= 255
    ensures FeedAll([], Framed(3, data)).1 == [Frame(data)]
  {
    NoSync([]);
    NoiseNeverHidesAFrame([], data, []);
    ScanUnfinished([]);
    assert [] + Framed(3, data) + [] == Framed(3, data);
  }

  lemma CorruptedFrame(data: seq<byte>, i: nat, c: byte)
    requires |data| <= 255 && 9 <= i < |data| + 10 && c != Framed(3, data)[i]
    ensures var g := Framed(3, data)[i := c];
            g[..8] == PREFIX && |g| == FrameLength(g[8]) && Completed(g) == BadSum
  {
    var f := Framed(3, data);
    var g := f[i := c];
    var n := |f| - 1;
    FramedParts(data);
    hide Framed, Total;
    assert g[..8] == f[..8];
    if i < n {
      assert g[..n] == f[..n][i := c];
      TotalUpdate(f[..n], i, c);
    } else {
      assert g[..n] == f[..n];
    }
  }

  /** Changing any one payload or checksum byte is noticed. */
  lemma CorruptionRejected(data: seq<byte>, i: nat, c: byte)
    requires |data| <= 255 && 9 <= i < |data| + 10 && c != Framed(3, data)[i]
    ensures FeedAll([], Framed(3, data)[i := c]).1 == [BadSum]
  {
    hide Scan, FeedAll, Framed, Completed;
    var g := Framed(3, data)[i := c];
    CorruptedFrame(data, i, c);
    ScanWhole(g, []);
    ScanUnfinished([]);
    FeedAllScans([], g);
    assert [] + g == g == g + [];
  }

  /// Strings

  /** `take_string`: a length-prefixed string and what follows it. */
  function TakeString(data: seq<byte>, capacity: nat): Option<(CString, seq<byte>)> {
    if data == [] then None
    else
      var length, rest := data[0], data[1..];
      if length >= capacity || length > |rest| || 0 in rest[..length] then None
      else Some((rest[..length], rest[length..]))
  }

  datatype Credentials = Credentials(ssid: CString, password: CString)

  /** What `wifi_settings` passes to `save_wifi`, if it calls it. */
  function WifiRequest(data: seq<byte>): Option<Credentials> {
    var ssid := TakeString(data, 33);
    if ssid.None? then None
    else
      var password := TakeString(ssid.value.1, 65);
      if password.None? || password.value.1 != [] || ssid.value.0 == [] then None
      else Some(Credentials(ssid.value.0, password.value.0))
  }

  function Prefixed(s: seq<byte>): seq<byte>
    requires |s| <= 255
  {
    [|s|] + s
  }

  lemma TakeStringInverts(s: CString, rest: seq<byte>, capacity: nat)
    requires |s| <= 255
    ensures TakeString(Prefixed(s) + rest, capacity) ==
            if |s| < capacity then Some((s, rest)) else None
  {
    var data := Prefixed(s) + rest;
    assert data[1..][..|s|] == s && data[1..][|s|..] == rest;
  }

  /** The credentials that reach `save_wifi` are exactly those the request spells: an
      SSID of 1 to 32 bytes and a password of 0 to 64, neither with a NUL. */
  lemma CredentialsArriveExactly(data: seq<byte>, c: Credentials)
    ensures WifiRequest(data) == Some(c) <==>
            (1 <= |c.ssid| <= 32 && |c.password| <= 64 && data == Prefixed(c.ssid) + Prefixed(c.password))
  {
    if 1 <= |c.ssid| <= 32 && |c.password| <= 64 && data == Prefixed(c.ssid) + Prefixed(c.password) {
      TakeStringInverts(c.ssid, Prefixed(c.password), 33);
      TakeStringInverts(c.password, [], 65);
      assert Prefixed(c.password) + [] == Prefixed(c.password);
    }
    if WifiRequest(data) == Some(c) {
      var tail := TakeString(data, 33).value.1;
      assert data == Prefixed(c.ssid) + tail;
      assert tail == Prefixed(c.password) + [];
      assert tail == Prefixed(c.password);
    }
  }

  /// Lists of strings

  predicate Short(strings: seq<seq<byte>>) {
    forall i | 0 <= i < |strings| :: |strings[i]| <= 255
  }

  /** The strings of a result, each behind its length. */
  function Listed(strings: seq<seq<byte>>): seq<byte>
    requires Short(strings)
  {
    if strings == [] then []
    else Listed(strings[..|strings| - 1]) + Prefixed(strings[|strings| - 1])
  }

  function ListedSize(strings: seq<seq<byte>>): nat {
    if strings == [] then 0 else ListedSize(strings[..|strings| - 1]) + |strings[|strings| - 1]| + 1
  }

  predicate Fits(strings: seq<seq<byte>>) {
    2 + ListedSize(strings) <= 255
  }

  lemma {:induction false} ListedSizeBounds(strings: seq<seq<byte>>, i: nat)
    requires i <= |strings|
    ensures ListedSize(strings[..i]) <= ListedSize(strings)
    ensures forall j: nat | j < i :: |strings[j]| < ListedSize(strings)
    decreases |strings|
  {
    if i == |strings| {
      assert strings[..i] == strings;
      if i > 0 {
        ListedSizeBounds(strings[..i - 1], i - 1);
      }
    } else {
      ListedSizeBounds(strings[..|strings| - 1], i);
      assert strings[..|strings| - 1][..i] == strings[..i];
    }
  }

  lemma FitsShort(strings: seq<seq<byte>>)
    requires Fits(strings)
    ensures Short(strings)
  {
    ListedSizeBounds(strings, |strings|);
  }

  lemma ListedNothing()
    ensures Listed([]) == [] && ListedSize([]) == 0
  {
  }

  lemma ListedSnoc(strings: seq<seq<byte>>, s: seq<byte>)
    requires Short(strings) && |s| <= 255
    ensures Short(strings + [s])
    ensures Listed(strings + [s]) == Listed(strings) + Prefixed(s)
    ensures ListedSize(strings + [s]) == ListedSize(strings) + |s| + 1
  {
    hide Prefixed;
    assert (strings + [s])[..|strings|] == strings;
  }

  lemma ListedSizeSnoc(strings: seq<seq<byte>>, s: seq<byte>)
    ensures ListedSize(strings + [s]) == ListedSize(strings) + |s| + 1
  {
    assert (strings + [s])[..|strings|] == strings;
  }

  lemma {:induction false} ListedLength(strings: seq<seq<byte>>)
    requires Short(strings)
    ensures |Listed(strings)| == ListedSize(strings)
  {
    if strings != [] {
      ListedLength(strings[..|strings| - 1]);
    }
  }

  lemma {:induction false} ListedCons(s: seq<byte>, strings: seq<seq<byte>>)
    requires |s| <= 255 && Short(strings)
    ensures Short([s] + strings)
    ensures Listed([s] + strings) == Prefixed(s) + Listed(strings)
    decreases |strings|
  {
    hide Listed, Prefixed;
    ListedNothing();
    if strings == [] {
      ListedSnoc([], s);
      assert Prefixed(s) + [] == Prefixed(s) == [] + Prefixed(s);
      assert [s] + strings == [] + [s];
    } else {
      var init, last := strings[..|strings| - 1], strings[|strings| - 1];
      ListedCons(s, init);
      assert [s] + strings == [s] + init + [last];
      ListedSnoc([s] + init, last);
      ListedSnoc(init, last);
      assert init + [last] == strings;
    }
  }

  /** A reader that takes `n` strings in a row. */
  function TakeStrings(data: seq<byte>, n: nat): Option<(seq<seq<byte>>, seq<byte>)> {
    if n == 0 then Some(([], data))
    else
      var head := TakeString(data, 256);
      if head.None? then None
      else
        var tail := TakeStrings(head.value.1, n - 1);
        if tail.None? then None else Some(([head.value.0] + tail.value.0, tail.value.1))
  }

  /** The strings of a result come back in order, with nothing left over. */
  lemma {:induction false} ListedDecodes(strings: seq<seq<byte>>, rest: seq<byte>)
    requires Short(strings) && forall i | 0 <= i < |strings| :: 0 !in strings[i]
    ensures TakeStrings(Listed(strings) + rest, |strings|) == Some((strings, rest))
    decreases |strings|
  {
    hide Listed, TakeString;
    if strings == [] {
      ListedNothing();
      assert Listed(strings) + rest == rest;
    } else {
      var first, others := strings[0], strings[1..];
      assert strings == [first] + others;
      ListedCons(first, others);
      assert Listed(strings) + rest == Prefixed(first) + (Listed(others) + rest);
      TakeStringInverts(first, Listed(others) + rest, 256);
      ListedDecodes(others, rest);
    }
  }

  /// Packets, commands and the provisioning state

  datatype Packet = Packet(kind: byte, data: seq<byte>)

  function ErrorPacket(code: byte): Packet {
    Packet(2, [code])
  }

  function StatePacket(value: byte): Packet {
    Packet(1, [value])
  }

  /** `result`: the strings behind the command and their size, or error 255. */
  function ResultPacket(command: byte, strings: seq<seq<byte>>): Packet {
    if !Fits(strings) then ErrorPacket(255)
    else
      FitsShort(strings);
      Packet(4, [command, ListedSize(strings)] + Listed(strings))
  }

  datatype Session = Session(state: byte, pending: byte)

  datatype Reaction = Reaction(session: Session, packets: seq<Packet>)

  const NAME: CString := Ascii("Daddy Status")
  const CHIP: CString := Ascii("ESP32")

  function Info(version: CString): seq<CString> {
    [NAME, version, CHIP, NAME]
  }

  function InitialSession(trial: bool): Session {
    if trial then Session(PROVISIONING, 1) else Session(AUTHORIZED, 0)
  }

  /** `code` is the answer of `save_wifi`, consulted only when it is called. */
  function WifiSettings(s: Session, data: seq<byte>, code: byte): Reaction {
    if WifiRequest(data).None? then Reaction(s, [ErrorPacket(1)])
    else if code != 0 then Reaction(s, [ErrorPacket(code)])
    else Reaction(Session(PROVISIONING, 1), [StatePacket(PROVISIONING)])
  }

  function EmptyCommand(s: Session, command: byte, version: CString): Reaction {
    if command == 2 then
      Reaction(if s.state == PROVISIONED then s.(pending := 2) else s, [StatePacket(s.state)])
    else if command == 3 then Reaction(s, [ResultPacket(3, Info(version))])
    else Reaction(s, [ErrorPacket(2)])
  }

  /** The credentials a command carries, if it is a well-formed Wi-Fi request. */
  function Requested(data: seq<byte>): Option<Credentials> {
    if |data| >= 2 && data[1] == |data| - 2 && data[0] == 1 then WifiRequest(data[2..]) else None
  }

  function Answer(s: Session, data: seq<byte>, version: CString, code: byte): Reaction {
    if |data| < 2 || data[1] != |data| - 2 then Reaction(s, [ErrorPacket(1)])
    else if data[0] == 1 then WifiSettings(s, data[2..], code)
    else if data[1] != 0 then Reaction(s, [ErrorPacket(1)])
    else EmptyCommand(s, data[0], version)
  }

  /** `dispatch`: error 0 clears the host's last error, then the command is answered. */
  function Dispatch(s: Session, data: seq<byte>, version: CString, code: byte): Reaction {
    var answer := Answer(s, data, version, code);
    answer.(packets := [ErrorPacket(0)] + answer.packets)
  }

  function OnEvent(s: Session, e: Option<Event>, version: CString, code: byte): Reaction {
    match e
    case None => Reaction(s, [])
    case Some(BadSum) => Reaction(s, [ErrorPacket(1)])
    case Some(Frame(data)) => Dispatch(s, data, version, code)
  }

  function Provisioned(s: Session, url: CString): Reaction {
    Reaction(Session(PROVISIONED, 0),
             (if s.state != PROVISIONED then [StatePacket(PROVISIONED)] else []) +
             (if s.pending != 0 then [ResultPacket(s.pending, [url])] else []))
  }

  /** `improv_poll`; an empty `url` stands for none. */
  function Poll(s: Session, url: CString, trial: bool, expired: bool): Reaction {
    if expired && s.state == PROVISIONING then
      Reaction(Session(AUTHORIZED, 0), [ErrorPacket(3), StatePacket(AUTHORIZED)])
    else if url == [] then
      if s.state == PROVISIONED then Reaction(s.(state := AUTHORIZED), [StatePacket(AUTHORIZED)])
      else Reaction(s, [])
    else if trial then Reaction(s, [])
    else Provisioned(s, url)
  }

  /** A result owed to command 1 is owed exactly while provisioning, whatever is
      dispatched or polled. */
  ghost predicate SessionOk(s: Session) {
    && s.pending <= 2
    && (s.pending == 1 <==> s.state == PROVISIONING)
    && (s.state == AUTHORIZED || s.state == PROVISIONING || s.state == PROVISIONED)
  }

  lemma SessionStaysOk(s: Session, e: Option<Event>, version: CString, code: byte,
                       url: CString, trial: bool, expired: bool)
    requires SessionOk(s)
    ensures SessionOk(InitialSession(trial))
    ensures SessionOk(OnEvent(s, e, version, code).session)
    ensures SessionOk(Poll(s, url, trial, expired).session)
  {
    hide WifiRequest, ResultPacket, Info;
  }

  /// On the wire

  predicate PacketsOk(packets: seq<Packet>) {
    forall i | 0 <= i < |packets| :: |packets[i].data| <= 255
  }

  function Wire(packets: seq<Packet>): seq<seq<byte>>
    requires PacketsOk(packets)
  {
    seq(|packets|, i requires 0 <= i < |packets| => Framed(packets[i].kind, packets[i].data))
  }

  lemma WireAppend(a: seq<Packet>, b: seq<Packet>)
    requires PacketsOk(a) && PacketsOk(b)
    ensures PacketsOk(a + b) && Wire(a + b) == Wire(a) + Wire(b)
  {
  }

  lemma WireEmpty()
    ensures Wire([]) == []
  {
  }

  lemma ResultPacketOk(command: byte, strings: seq<seq<byte>>)
    ensures |ResultPacket(command, strings).data| <= 255
  {
    if Fits(strings) {
      FitsShort(strings);
      ListedLength(strings);
    }
  }

  lemma ReactionsOk(s: Session, e: Option<Event>, version: CString, code: byte,
                    url: CString, trial: bool, expired: bool)
    ensures PacketsOk(OnEvent(s, e, version, code).packets)
    ensures PacketsOk(Poll(s, url, trial, expired).packets)
  {
    hide ResultPacket, WifiRequest, Info;
    ResultPacketOk(3, Info(version));
    ResultPacketOk(s.pending, [url]);
  }

  /** Is `p` the answer to `command` with these strings? A result that spells them when
      command, size and strings fit 255 bytes, else error 255. */
  predicate Spells(p: Packet, command: byte, strings: seq<seq<byte>>) {
    if 2 + ListedSize(strings) <= 255
    then && p.kind == 4 && |p.data| == 2 + ListedSize(strings)
         && p.data[0] == command && p.data[1] == |p.data| - 2
         && TakeStrings(p.data[2..], |strings|) == Some((strings, []))
    else p == Packet(2, [255])
  }

  /** A result is sent exactly when it fits, and what is sent spells the strings back. */
  lemma ResultFitsAndDecodes(command: byte, strings: seq<CString>)
    ensures Spells(ResultPacket(command, strings), command, strings)
  {
    if Fits(strings) {
      FitsShort(strings);
      ListedLength(strings);
      ListedDecodes(strings, []);
      assert Listed(strings) + [] == Listed(strings);
      assert ResultPacket(command, strings).data[2..] == Listed(strings);
    }
  }

  /// What the host is told

  /** A poll. A trial that expired is reported once, as error 3. Without an address a
      provisioned device goes back to authorized; during a trial it keeps quiet; else it
      announces that it is provisioned and sends the result it owes, and owes nothing any
      more. */
  lemma PollAnswers(s: Session, url: CString, trial: bool, expired: bool)
    ensures var r := Poll(s, url, trial, expired);
            var news := if s.state != 4 then [Packet(1, [4])] else [];
            if expired && s.state == 3 then r == Reaction(Session(2, 0), [Packet(2, [3]), Packet(1, [2])])
            else if url == [] && s.state == 4 then r == Reaction(Session(2, s.pending), [Packet(1, [2])])
            else if url == [] || trial then r == Reaction(s, [])
            else && r.session == Session(4, 0)
                 && if s.pending == 0 then r.packets == news
                    else && |r.packets| == |news| + 1 && r.packets[..|news|] == news
                         && Spells(r.packets[|news|], s.pending, [url])
  {
    hide Spells, ResultPacket;
    ResultFitsAndDecodes(s.pending, [url]);
  }

  /** Is `answer` the answer to a command, and `next` the session after it? Error 1 for a
      malformed command, the current state for command 2, the four strings of information
      for command 3, error 2 for an unknown one. A Wi-Fi request is answered by the code of
      `save_wifi`, or when that is 0 by the state PROVISIONING, and then owes a result. */
  predicate AnswersTo(s: Session, data: seq<byte>, version: CString, code: byte, next: Session, answer: Packet) {
    if |data| < 2 || data[1] != |data| - 2 then next == s && answer == Packet(2, [1])
    else if data[0] == 1 then
      if WifiRequest(data[2..]).None? then next == s && answer == Packet(2, [1])
      else if code != 0 then next == s && answer == Packet(2, [code])
      else next == Session(3, 1) && answer == Packet(1, [3])
    else if |data| != 2 then next == s && answer == Packet(2, [1])
    else if data[0] == 2 then
      next == Session(s.state, if s.state == 4 then 2 else s.pending) && answer == Packet(1, [s.state])
    else if data[0] == 3 then next == s && Spells(answer, 3, Info(version))
    else next == s && answer == Packet(2, [2])
  }

  lemma EmptyAnswers(s: Session, command: byte, version: CString)
    requires command != 1
    ensures var r := EmptyCommand(s, command, version);
            |r.packets| == 1 && AnswersTo(s, [command, 0], version, 0, r.session, r.packets[0])
  {
    hide Spells, ResultPacket, WifiRequest, Info, Ascii;
    ResultFitsAndDecodes(3, Info(version));
  }

  lemma AnswerAnswers(s: Session, data: seq<byte>, version: CString, code: byte)
    ensures var r := Answer(s, data, version, code);
            |r.packets| == 1 && AnswersTo(s, data, version, code, r.session, r.packets[0])
  {
    hide Spells, EmptyCommand, WifiRequest;
    if |data| == 2 && data[0] != 1 {
      EmptyAnswers(s, data[0], version);
    }
  }

  /** Every command is acknowledged by error 0, which clears the host's last error, and
      then answered by exactly one packet. */
  lemma CommandAnswers(s: Session, data: seq<byte>, version: CString, code: byte)
    ensures var r := Dispatch(s, data, version, code);
            && |r.packets| == 2 && r.packets[0] == Packet(2, [0])
            && AnswersTo(s, data, version, code, r.session, r.packets[1])
    ensures Info(version) == [NAME, version, CHIP, NAME]
  {
    hide AnswersTo, Answer, Ascii;
    AnswerAnswers(s, data, version, code);
  }

  /** Asking a provisioned device for its state gets the state, and the address with the
      next poll. */
  lemma StateRequestGetsAddress(s: Session, version: CString, code: byte, url: CString, expired: bool)
    requires s.state == 4 && url != []
    ensures var asked := Dispatch(s, [2, 0], version, code);
            var polled := Poll(asked.session, url, false, expired);
            && asked.packets == [Packet(2, [0]), Packet(1, [4])]
            && polled.session == Session(4, 0)
            && |polled.packets| == 1 && Spells(polled.packets[0], 2, [url])
  {
    hide Spells, Dispatch, Poll, Info, Ascii;
    CommandAnswers(s, [2, 0], version, code);
    PollAnswers(Dispatch(s, [2, 0], version, code).session, url, false, expired);
  }

  /** The credentials for which a frame makes `dispatch` call `save_wifi`. */
  function Asked(e: Option<Event>): seq<Credentials> {
    if e.Some? && e.value.Frame? && Requested(e.value.payload).Some?
    then [Requested(e.value.payload).value] else []
  }

  /** Command 1 with an SSID and a password. */
  function WifiCommandData(c: Credentials): (data: seq<byte>)
    requires |c.ssid| <= 32 && |c.password| <= 64
    ensures |data| >= 4
  {
    var list := Prefixed(c.ssid) + Prefixed(c.password);
    [1, |list|] + list
  }

  lemma WifiCommandParts(c: Credentials)
    requires 1 <= |c.ssid| <= 32 && |c.password| <= 64
    ensures var data := WifiCommandData(c);
            data[0] == 1 && data[1] == |data| - 2 && WifiRequest(data[2..]) == Some(c)
  {
    hide WifiRequest, Prefixed;
    var list := Prefixed(c.ssid) + Prefixed(c.password);
    assert WifiCommandData(c)[2..] == list;
    CredentialsArriveExactly(list, c);
  }

  /** It makes `dispatch` call `save_wifi` with just those, and be answered by its code. */
  lemma WifiCommandAsks(s: Session, c: Credentials, version: CString, code: byte)
    requires 1 <= |c.ssid| <= 32 && |c.password| <= 64
    ensures var e := Some(Frame(WifiCommandData(c)));
            && Asked(e) == [c]
            && OnEvent(s, e, version, code) ==
               Reaction(if code == 0 then Session(3, 1) else s,
                        [Packet(2, [0]), if code == 0 then Packet(1, [3]) else Packet(2, [code])])
  {
    hide WifiRequest, Dispatch, Spells, Info, Ascii, WifiCommandData, ResultPacket;
    WifiCommandParts(c);
    var data := WifiCommandData(c);
    CommandAnswers(s, data, version, code);
    var packets := Dispatch(s, data, version, code).packets;
    assert packets == [packets[0], packets[1]];
  }
}
