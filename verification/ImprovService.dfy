/** The `improv_t` object of main/improv.c and the `save_wifi` of main/improv_serial.c that
    it calls back in the middle of a dispatch. */
module ImprovService {
  import opened Common
  import opened SettingsStore
  import opened Improv

  method Checksum(frame: array<byte>, n: nat) returns (sum: byte)
    requires n <= frame.Length
    ensures sum == Sum8(frame[..n])
  {
    sum := 0;
    for i := 0 to n
      invariant sum == Sum8(frame[..i])
    {
      assert frame[..i + 1][..i] == frame[..i];
      sum := (sum + frame[i]) % 256;
    }
  }

  /** `memcpy` into a buffer. */
  method CopyAt(buffer: array<byte>, at: nat, text: seq<byte>)
    requires at + |text| <= buffer.Length
    modifies buffer
    ensures buffer[..at] == old(buffer[..at]) && buffer[at..at + |text|] == text
  {
    for i := 0 to |text|
      invariant buffer[..at] == old(buffer[..at]) && buffer[at..at + i] == text[..i]
    {
      buffer[at + i] := text[i];
    }
    assert text[..|text|] == text;
  }

  method AppendString(buffer: array<byte>, at: nat, text: seq<byte>)
    requires |text| <= 255 && at + 1 + |text| <= buffer.Length
    modifies buffer
    ensures buffer[..at + 1 + |text|] == old(buffer[..at]) + Prefixed(text)
  {
    buffer[at] := |text|;
    ghost var front := buffer[..at + 1];
    assert front == old(buffer[..at]) + [|text|];
    CopyAt(buffer, at + 1, text);
    assert buffer[..at + 1 + |text|] == buffer[..at + 1] + buffer[at + 1..at + 1 + |text|];
  }

  /** The loop of `result`: fill 255 bytes with the strings, or give up at the first
      that does not fit. */
  method ResultData(command: byte, strings: seq<seq<byte>>) returns (ok: bool, text: seq<byte>)
    ensures ok <==> Fits(strings)
    ensures ok ==> ResultPacket(command, strings) == Packet(4, text)
  {
    hide Listed, ListedSize, Prefixed;
    ListedNothing();
    var data := new byte[255](_ => 0);
    data[0] := command;
    var n := 2;
    assert data[..2] == [command, 0] + Listed(strings[..0]);
    for i := 0 to |strings|
      invariant n == 2 + ListedSize(strings[..i]) <= 255
      invariant Short(strings[..i]) && data[..n] == [command, 0] + Listed(strings[..i])
    {
      var s := strings[i];
      assert strings[..i + 1] == strings[..i] + [s];
      ListedSizeSnoc(strings[..i], s);
      if n >= 255 || |s| > 255 - n - 1 {
        ListedSizeBounds(strings, i + 1);
        return false, [];
      }
      ListedSnoc(strings[..i], s);
      AppendString(data, n, s);
      n := n + 1 + |s|;
    }
    assert strings[..|strings|] == strings;
    ghost var filled := data[..n];
    data[1] := n - 2;
    text := data[..n];
    assert text == [command, n - 2] + filled[2..];
    return true, text;
  }

  /// The callbacks

  /** The Improv error code of a `settings_save_wifi` outcome. */
  function SaveCode(err: Err): byte {
    if err == EspOk then 0 else if err == EspInvalidArg then 1 else 255
  }

  /** What `save_wifi` reads and changes. */
  datatype Backing = Backing(durable: Durable, ram: Ram, restarting: bool)

  /** What the calls of a frame do (`Asked` is one or none), and the code they answer. */
  function Called(link: Backing, asked: seq<Credentials>, write: Outcome, timer: int)
    : (r: (Backing, byte))
    ensures asked == [] ==> r == (link, 255)
  {
    if asked == [] then (link, 255)
    else
      var save := SaveWifi(link.durable, link.ram, asked[0].ssid, asked[0].password, write, timer);
      (Backing(save.durable, save.ram, link.restarting || save.err == EspOk), SaveCode(save.err))
  }

  /** A call of `save_wifi` and how many packets had been sent before it. */
  datatype Call = Call(credentials: Credentials, after: nat)

  function Calls(asked: seq<Credentials>, after: nat): seq<Call> {
    if asked == [] then [] else [Call(asked[0], after)]
  }

  /** `improv_io_t` as `improv_serial_init` fills it. `sent` and `asked` list the calls of
      its two functions. */
  class Io {
    const store: Store
    const version: CString
    var restarting: bool
    var sent: seq<seq<byte>>
    var asked: seq<Call>

    ghost function Link(): Backing
      reads this, store, store.flash
    {
      Backing(store.Disk(), store.View(), restarting)
    }

    constructor (store: Store, version: CString)
      ensures this.store == store && this.version == version
      ensures !restarting && sent == [] && asked == []
    {
      this.store, this.version := store, version;
      restarting, sent, asked := false, [], [];
    }

    method Write(bytes: seq<byte>)
      modifies this`sent
      ensures sent == old(sent) + [bytes]
    {
      sent := sent + [bytes];
    }

    method SaveWifi(c: Credentials, write: Outcome, timer: int) returns (code: byte)
      modifies this`restarting, this`asked, store`record, store`rebootAt, store.flash`blob
      ensures (Link(), code) == Called(old(Link()), [c], write, timer)
      ensures asked == old(asked) + [Call(c, |sent|)]
    {
      asked := asked + [Call(c, |sent|)];
      var err := store.SettingsSaveWifi(c.ssid, c.password, write, timer);
      if err == EspOk {
        restarting := true;
      }
      return SaveCode(err);
    }
  }

  lemma NothingCompleted(s: Session, version: CString)
    ensures forall code :: OnEvent(s, None, version, code) == Reaction(s, [])
    ensures Asked(None) == [] && PacketsOk([]) && Wire([]) == []
  {
  }

  /** The three ends of `improv_feed`. */
  lemma ByteTaken(kept: seq<byte>, b: byte)
    requires Partial(kept)
    ensures var next := kept + [b];
            FeedByte(kept, b) ==
            if |kept| < |PREFIX| && b != PREFIX[|kept|] then (if b == PREFIX[0] then [b] else [], None)
            else if |next| >= 10 && |next| == FrameLength(next[8]) then ([], Some(Completed(next)))
            else (next, None)
  {
  }

  lemma KeptStaysPartial(p: Parser, now: int)
    requires Partial(p.buf)
    ensures Partial(Kept(p, now))
  {
  }

  lemma OnePacket(p: Packet)
    requires PacketsOk([p])
    ensures |Wire([p])| == 1
  {
  }

  /** `improv_t`. */
  class Service {
    const io: Io
    const frame: array<byte>
    var used: nat
    var state: byte
    var pendingResult: byte
    var lastByte: int

    ghost predicate Valid()
      reads this, frame
    {
      frame.Length == FRAME_SIZE && used < FRAME_SIZE && Partial(frame[..used])
    }

    ghost function Input(): Parser
      reads this, frame
      requires used <= frame.Length
    {
      Parser(frame[..used], lastByte)
    }

    ghost function View(): Session
      reads this
    {
      Session(state, pendingResult)
    }

    constructor (io: Io, trial: bool)
      ensures Valid() && fresh(frame) && Input().buf == [] && View() == InitialSession(trial)
      ensures this.io == io
    {
      this.io := io;
      frame := new byte[FRAME_SIZE](_ => 0);
      used, lastByte := 0, 0;
      state := if trial then PROVISIONING else AUTHORIZED;
      pendingResult := if trial then 1 else 0;
    }

    method Send(kind: byte, data: seq<byte>)
      requires |data| <= 255
      modifies io`sent
      ensures io.sent == old(io.sent) + [Framed(kind, data)]
    {
      var n: byte := |data|;
      var out := new byte[FRAME_SIZE](i =>
        if 0 <= i < 7 then PREFIX[i] else if i == 7 then kind else if i == 8 then n else 0);
      assert out[..9] == Header(kind, n);
      CopyAt(out, 9, data);
      assert out[..n + 9] == out[..9] + out[9..n + 9];
      var checksum := Checksum(out, n + 9);
      out[n + 9] := checksum;
      var bytes := out[..n + 10];
      assert bytes == Framed(kind, data);
      io.Write(bytes);
    }

    method SendPacket(ghost p: Packet, kind: byte, data: seq<byte>)
      requires p == Packet(kind, data) && PacketsOk([p])
      modifies io`sent
      ensures io.sent == old(io.sent) + Wire([p])
    {
      assert |[p][0].data| <= 255;
      Send(kind, data);
    }

    method Error(code: byte)
      modifies io`sent
      ensures io.sent == old(io.sent) + Wire([ErrorPacket(code)])
    {
      SendPacket(ErrorPacket(code), 2, [code]);
    }

    method SetState(value: byte)
      modifies io`sent, this`state
      ensures state == value && io.sent == old(io.sent) + Wire([StatePacket(value)])
    {
      state := value;
      SendPacket(StatePacket(value), 1, [value]);
    }

    method Result(command: byte, strings: seq<seq<byte>>)
      modifies io`sent
      ensures PacketsOk([ResultPacket(command, strings)])
      ensures io.sent == old(io.sent) + Wire([ResultPacket(command, strings)])
    {
      ResultPacketOk(command, strings);
      var ok, data := ResultData(command, strings);
      if ok {
        SendPacket(ResultPacket(command, strings), 4, data);
      } else {
        Error(255);
      }
    }

    method WifiCommand(data: seq<byte>, write: Outcome, timer: int)
      modifies io`sent, this`state, this`pendingResult,
               io`restarting, io`asked, io.store`record, io.store`rebootAt, io.store.flash`blob
      ensures var asked := if WifiRequest(data).Some? then [WifiRequest(data).value] else [];
              var (link, code) := Called(old(io.Link()), asked, write, timer);
              var r := WifiSettings(old(View()), data, code);
              && io.Link() == link && io.asked == old(io.asked) + Calls(asked, |old(io.sent)|)
              && View() == r.session && PacketsOk(r.packets) && io.sent == old(io.sent) + Wire(r.packets)
    {
      var answer: byte := 1;
      var ssid := TakeString(data, 33);
      if ssid.Some? {
        var password := TakeString(ssid.value.1, 65);
        if password.Some? && password.value.1 == [] && ssid.value.0 != [] {
          answer := io.SaveWifi(Credentials(ssid.value.0, password.value.0), write, timer);
        }
      }
      if answer != 0 {
        Error(answer);
        return;
      }
      pendingResult := 1;
      SetState(PROVISIONING);
    }

    method Command(command: byte)
      modifies io`sent, this`state, this`pendingResult
      ensures var r := EmptyCommand(old(View()), command, io.version);
              && View() == r.session && PacketsOk(r.packets) && io.sent == old(io.sent) + Wire(r.packets)
    {
      hide Framed, Wire, ResultPacket;
      if command == 2 {
        SetState(state);
        if state == PROVISIONED {
          pendingResult := 2;
        }
      } else if command == 3 {
        Result(3, [NAME, io.version, CHIP, NAME]);
      } else {
        Error(2);
      }
    }

    method DispatchCommand(data: seq<byte>, write: Outcome, timer: int)
      modifies io`sent, this`state, this`pendingResult,
               io`restarting, io`asked, io.store`record, io.store`rebootAt, io.store.flash`blob
      ensures var asked := Asked(Some(Frame(data)));
              var (link, code) := Called(old(io.Link()), asked, write, timer);
              var r := Dispatch(old(View()), data, io.version, code);
              && io.Link() == link && io.asked == old(io.asked) + Calls(asked, |old(io.sent)| + 1)
              && View() == r.session && PacketsOk(r.packets) && io.sent == old(io.sent) + Wire(r.packets)
    {
      hide Framed, Wire, WifiRequest, ResultPacket, Info, Called;
      ghost var code := Called(io.Link(), Asked(Some(Frame(data))), write, timer).1;
      ReactionsOk(View(), Some(Frame(data)), io.version, code, [], false, false);
      ghost var rest := Answer(View(), data, io.version, code).packets;
      assert PacketsOk([ErrorPacket(0)]) && Dispatch(View(), data, io.version, code).packets[1..] == rest;
      WireAppend([ErrorPacket(0)], rest);
      OnePacket(ErrorPacket(0));
      Error(0);
      if |data| < 2 || data[1] != |data| - 2 {
        Error(1);
      } else if data[0] == 1 {
        assert Asked(Some(Frame(data))) == if WifiRequest(data[2..]).Some? then [WifiRequest(data[2..]).value] else [];
        WifiCommand(data[2..], write, timer);
      } else if data[1] != 0 {
        Error(1);
      } else {
        Command(data[0]);
      }
    }

    method ClearFrame()
      requires frame.Length == FRAME_SIZE
      modifies this`used, frame
      ensures used == 0
    {
      for i := 0 to frame.Length {
        frame[i] := 0;
      }
      used := 0;
    }

    method Push(b: byte)
      requires used < frame.Length
      modifies this`used, frame
      ensures used == old(used) + 1 && used <= frame.Length && frame[..used] == old(frame[..used]) + [b]
    {
      frame[used] := b;
      used := used + 1;
    }

    method CompleteFrame(write: Outcome, timer: int)
      requires frame.Length == FRAME_SIZE && 10 <= used <= FRAME_SIZE && used == FrameLength(frame[8])
      modifies this`used, io`sent, this`state, this`pendingResult,
               io`restarting, io`asked, io.store`record, io.store`rebootAt, io.store.flash`blob, frame
      ensures used == 0
      ensures var e := Some(Completed(old(frame[..used])));
              var (link, code) := Called(old(io.Link()), Asked(e), write, timer);
              var r := OnEvent(old(View()), e, io.version, code);
              && io.Link() == link && io.asked == old(io.asked) + Calls(Asked(e), |old(io.sent)| + 1)
              && View() == r.session && PacketsOk(r.packets) && io.sent == old(io.sent) + Wire(r.packets)
    {
      hide Called;
      ghost var f := frame[..used];
      var sum := Checksum(frame, used - 1);
      assert f[..used - 1] == frame[..used - 1];
      if sum != frame[used - 1] {
        Error(1);
      } else {
        assert frame[9..9 + frame[8]] == f[9..9 + f[8]];
        DispatchCommand(frame[9..9 + frame[8]], write, timer);
      }
      ClearFrame();
    }

    method Feed(b: byte, now: int, write: Outcome, timer: int)
      requires Valid()
      modifies this`used, io`sent, this`state, this`pendingResult,
               io`restarting, io`asked, io.store`record, io.store`rebootAt, io.store.flash`blob, this`lastByte, frame
      ensures Valid()
      ensures var (buf, e) := FeedByte(Kept(old(Input()), now), b);
              var (link, code) := Called(old(io.Link()), Asked(e), write, timer);
              var r := OnEvent(old(View()), e, io.version, code);
              && Input() == Parser(buf, now)
              && io.Link() == link && io.asked == old(io.asked) + Calls(Asked(e), |old(io.sent)| + 1)
              && View() == r.session && PacketsOk(r.packets) && io.sent == old(io.sent) + Wire(r.packets)
    {
      hide Called, OnEvent, Wire, Asked, Completed, PacketsOk, FeedByte, Partial;
      NothingCompleted(View(), io.version);
      if used != 0 && now - lastByte > SECOND {
        ClearFrame();
      }
      lastByte := now;
      ghost var kept := frame[..used];
      assert kept == Kept(old(Input()), now);
      KeptStaysPartial(old(Input()), now);
      ByteTaken(kept, b);
      ghost var taken := FeedByte(kept, b);
      if used < |PREFIX| && b != PREFIX[used] {
        ClearFrame();
        if b == PREFIX[0] {
          Push(b);
        }
        assert frame[..used] == taken.0;
        return;
      }
      Push(b);
      if used >= 10 && used == FrameLength(frame[8]) {
        CompleteFrame(write, timer);
      }
      assert frame[..used] == taken.0;
    }

    method PollUrl(url: CString, trial: bool, expired: bool)
      modifies io`sent, this`state, this`pendingResult
      ensures var r := Poll(old(View()), url, trial, expired);
              && View() == r.session && PacketsOk(r.packets) && io.sent == old(io.sent) + Wire(r.packets)
    {
      hide Framed, Wire, ResultPacket;
      ReactionsOk(View(), None, io.version, 0, url, trial, expired);
      WireEmpty();
      if expired && state == PROVISIONING {
        assert [ErrorPacket(3), StatePacket(AUTHORIZED)] == [ErrorPacket(3)] + [StatePacket(AUTHORIZED)];
        WireAppend([ErrorPacket(3)], [StatePacket(AUTHORIZED)]);
        Error(3);
        SetState(AUTHORIZED);
        pendingResult := 0;
        return;
      }
      if url == [] {
        if state == PROVISIONED {
          SetState(AUTHORIZED);
        }
        return;
      }
      if !trial {
        ghost var announced := if state != PROVISIONED then [StatePacket(PROVISIONED)] else [];
        ghost var owed := if pendingResult != 0 then [ResultPacket(pendingResult, [url])] else [];
        ResultPacketOk(pendingResult, [url]);
        WireAppend(announced, owed);
        if state != PROVISIONED {
          SetState(PROVISIONED);
        }
        if pendingResult != 0 {
          Result(pendingResult, [url]);
          pendingResult := 0;
        }
        assert io.sent == old(io.sent) + Wire(announced) + Wire(owed);
      }
    }
  }
}
