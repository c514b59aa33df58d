/**
 * The UDP command frames Switcher.py sends to a Colorlight Z8 video
 * processor (`switch_preset`, `set_blackout`, `set_brightness`), and the
 * OSC handlers that build them on behalf of one allowed client.
 *
 * A frame is the byte string given to the socket; the socket itself is not
 * part of this model. A reference decoder states what each frame means and
 * is the partner every builder is proved against.
 */
module Colorlight {
  import opened Wrappers
  import opened Arith

  newtype byte = x: int | 0 <= x < 256

  /** A builder either yields its frame or raises `ValueError` with a message. */
  datatype Result<T> = Ok(value: T) | ValueError(message: string)

  const PresetRangeError: string := "Preset number must be between 1 and 16"
  const BrightnessRangeError: string := "Brightness must be between 0 and 100"

  /** One command to the processor; `allSenders` is the `select_all` flag. */
  datatype Command =
    | Preset(number: int, allSenders: bool)
    | Blackout(enabled: bool, allSenders: bool)
    | Brightness(percent: int, allSenders: bool)

  const PresetHeader: seq<byte> := [0x02, 0x10, 0x00, 0x13, 0x00, 0x00, 0x00]
  const BlackoutHeader: seq<byte> := [0x10, 0x10, 0x00, 0x12, 0x00, 0x00, 0x00]
  const BrightnessHeader: seq<byte> := [0x50, 0x10, 0x00, 0x13, 0x00, 0x00, 0x00]
  const Padding: seq<byte> := [0x00, 0x00, 0x00, 0x00, 0x00, 0x00, 0x00, 0x00]

  /** `sender_hi, sender_lo`: both `FF` to address every sender, both `00` otherwise. */
  function SenderPair(allSenders: bool): (pair: seq<byte>)
    ensures |pair| == 2 && pair[0] == pair[1]
    ensures pair[0] == 0xFF <==> allSenders
    ensures pair[0] == 0x00 <==> !allSenders
  {
    if allSenders then [0xFF, 0xFF] else [0x00, 0x00]
  }

  // ---------------------------------------------------------------------------
  // Frame builders
  // ---------------------------------------------------------------------------

  /** `switch_preset`: presets 1 to 16 travel as 0 to 15 in byte 17. */
  function PresetFrame(number: int, allSenders: bool): (r: Result<seq<byte>>)
    ensures r.ValueError? <==> !(1 <= number <= 16)
    ensures r.ValueError? ==> r.message == PresetRangeError
    ensures r.Ok? ==> |r.value| == 19 && r.value[17] as int == number - 1 && r.value[18] == 0x00
  {
    if !(1 <= number <= 16) then ValueError(PresetRangeError)
    else Ok(PresetHeader + SenderPair(allSenders) + Padding + [(number - 1) as byte, 0x00])
  }

  /** `set_blackout`: the last of 18 bytes is 1 to black the output out, 0 to restore it. */
  function BlackoutFrame(enabled: bool, allSenders: bool): (frame: seq<byte>)
    ensures |frame| == 18
    ensures frame[17] == (if enabled then 0x01 else 0x00)
  {
    BlackoutHeader + SenderPair(allSenders) + Padding + [if enabled then 0x01 else 0x00]
  }

  /** `value & 0xFF` and `(value >> 8) & 0xFF` for a non-negative value. */
  function LittleEndian16(value: nat): (pair: seq<byte>)
    ensures |pair| == 2
    ensures value < 0x1_0000 ==> pair[0] as int + 256 * pair[1] as int == value
  {
    [(value % 256) as byte, ((value / 256) % 256) as byte]
  }

  /**
   * `set_brightness`: the percentage times 100, a value from 0 to 10000,
   * little-endian in the last two of 19 bytes.
   */
  function BrightnessFrame(percent: int, allSenders: bool): (r: Result<seq<byte>>)
    ensures r.ValueError? <==> !(0 <= percent <= 100)
    ensures r.ValueError? ==> r.message == BrightnessRangeError
    ensures r.Ok? ==> |r.value| == 19 && r.value[17] as int + 256 * r.value[18] as int == percent * 100
  {
    if !(0 <= percent <= 100) then ValueError(BrightnessRangeError)
    else Ok(BrightnessHeader + SenderPair(allSenders) + Padding + LittleEndian16(percent * 100))
  }

  /** The frame a command produces, or the error its builder raises. */
  function Encode(cmd: Command): Result<seq<byte>>
  {
    match cmd
    case Preset(n, all) => PresetFrame(n, all)
    case Blackout(on, all) => Ok(BlackoutFrame(on, all))
    case Brightness(p, all) => BrightnessFrame(p, all)
  }

  // ---------------------------------------------------------------------------
  // Reference decoder
  // ---------------------------------------------------------------------------

  /** The addressing a sender pair stands for, if it is one of the two the builders write. */
  function SenderOf(pair: seq<byte>): Option<bool>
    requires |pair| == 2
  {
    if pair == [0xFF, 0xFF] then Some(true)
    else if pair == [0x00, 0x00] then Some(false)
    else None
  }

  /** What a frame asks the processor to do, independently of how it was built. */
  function Decode(frame: seq<byte>): Option<Command>
  {
    if |frame| == 19 && frame[..7] == PresetHeader && SenderOf(frame[7..9]).Some?
       && frame[9..17] == Padding && frame[17] < 16 && frame[18] == 0x00 then
      Some(Preset(frame[17] as int + 1, SenderOf(frame[7..9]).value))
    else if |frame| == 18 && frame[..7] == BlackoutHeader && SenderOf(frame[7..9]).Some?
       && frame[9..17] == Padding && frame[17] <= 0x01 then
      Some(Blackout(frame[17] == 0x01, SenderOf(frame[7..9]).value))
    else if |frame| == 19 && frame[..7] == BrightnessHeader && SenderOf(frame[7..9]).Some?
       && frame[9..17] == Padding then
      var value := frame[17] as int + 256 * frame[18] as int;
      if value % 100 == 0 && value <= 10000 then Some(Brightness(value / 100, SenderOf(frame[7..9]).value))
      else None
    else None
  }

  /** The three parts every frame starts with, read back from a built frame. */
  lemma FrameParts(header: seq<byte>, all: bool, tail: seq<byte>)
    requires |header| == 7
    ensures var f := header + SenderPair(all) + Padding + tail;
      && |f| == 17 + |tail| && f[..7] == header && f[7..9] == SenderPair(all)
      && f[9..17] == Padding && f[17..] == tail
  {
    var f := header + SenderPair(all) + Padding + tail;
    assert f[..7] == header;
    assert f[7..9] == SenderPair(all);
    assert f[9..17] == Padding;
    assert f[17..] == tail;
  }

  /** Every frame a builder produces decodes to the command it was built from. */
  lemma DecodeEncode(cmd: Command)
    requires Encode(cmd).Ok?
    ensures Decode(Encode(cmd).value) == Some(cmd)
  {
    match cmd
    case Preset(n, all) => DecodePreset(n, all);
    case Blackout(on, all) => DecodeBlackout(on, all);
    case Brightness(p, all) => DecodeBrightness(p, all);
  }

  lemma DecodePreset(n: int, all: bool)
    requires 1 <= n <= 16
    ensures Decode(PresetFrame(n, all).value) == Some(Preset(n, all))
  {
    FrameParts(PresetHeader, all, [(n - 1) as byte, 0x00]);
  }

  lemma DecodeBlackout(on: bool, all: bool)
    ensures Decode(BlackoutFrame(on, all)) == Some(Blackout(on, all))
  {
    FrameParts(BlackoutHeader, all, [if on then 0x01 else 0x00]);
  }

  lemma DecodeBrightness(p: int, all: bool)
    requires 0 <= p <= 100
    ensures Decode(BrightnessFrame(p, all).value) == Some(Brightness(p, all))
  {
    var le := LittleEndian16(p * 100);
    FrameParts(BrightnessHeader, all, le);
    var f := BrightnessFrame(p, all).value;
    assert f[..7] != PresetHeader by { assert f[0] == 0x50; }
    var value := f[17] as int + 256 * f[18] as int;
    assert value == p * 100;
    assert value % 100 == 0 && value / 100 == p by {
      DivUnique(value, 100, p, 0);
    }
  }

  /** A frame that decodes is exactly the frame its command builds. */
  lemma EncodeDecode(frame: seq<byte>)
    requires Decode(frame).Some?
    ensures Encode(Decode(frame).value) == Ok(frame)
  {
    var cmd := Decode(frame).value;
    var header := frame[..7];
    var tail := frame[17..];
    FrameParts(header, cmd.allSenders, tail);
    assert frame[7..9] == SenderPair(cmd.allSenders);
    assert frame == header + SenderPair(cmd.allSenders) + Padding + tail;
    if cmd.Preset? {
      assert tail == [(cmd.number - 1) as byte, 0x00];
    } else if cmd.Blackout? {
      assert tail == [if cmd.enabled then 0x01 else 0x00];
    } else {
      var value := frame[17] as int + 256 * frame[18] as int;
      assert cmd.percent * 100 == value;
      assert value % 256 == frame[17] as int && value / 256 == frame[18] as int;
      assert tail == LittleEndian16(cmd.percent * 100);
    }
  }

  /** Distinct commands never share a frame. */
  lemma EncodeInjective(a: Command, b: Command)
    requires Encode(a).Ok? && Encode(b).Ok? && Encode(a) == Encode(b)
    ensures a == b
  {
    DecodeEncode(a);
    DecodeEncode(b);
  }

  // ---------------------------------------------------------------------------
  // OSC handlers
  // ---------------------------------------------------------------------------

  /**
   * The gate every handler opens with: a request passes when no client
   * address has been recorded, or when the recorded one is the allowed IP.
   */
  predicate Admits(allowedIp: string, lastClient: Option<string>)
  {
    lastClient.None? || lastClient.value == allowedIp
  }

  /**
   * `preset_handler` with integer arguments: the frame it sends, or `None`
   * when it rejects the client, has no argument, or the builder's
   * `ValueError` is caught.
   */
  function OnPreset(allowedIp: string, lastClient: Option<string>, args: seq<int>): (sent: Option<seq<byte>>)
    ensures sent.Some? <==> Admits(allowedIp, lastClient) && |args| > 0 && 1 <= args[0] <= 16
    ensures sent.Some? ==> Decode(sent.value) == Some(Preset(args[0], true))
  {
    if !Admits(allowedIp, lastClient) || |args| == 0 then None
    else
      match PresetFrame(args[0], true)
      case ValueError(_) => None
      case Ok(frame) =>
        DecodeEncode(Preset(args[0], true));
        Some(frame)
  }

  /** `blackout_handler` with integer arguments: any non-zero first argument blacks out. */
  function OnBlackout(allowedIp: string, lastClient: Option<string>, args: seq<int>): (sent: Option<seq<byte>>)
    ensures sent.Some? <==> Admits(allowedIp, lastClient) && |args| > 0
    ensures sent.Some? ==> Decode(sent.value) == Some(Blackout(args[0] != 0, true))
  {
    if !Admits(allowedIp, lastClient) || |args| == 0 then None
    else
      DecodeEncode(Blackout(args[0] != 0, true));
      Some(BlackoutFrame(args[0] != 0, true))
  }

  /** The handler's reading of its argument: 0 and 1 are a fraction of full brightness. */
  function NormalisedBrightness(b: int): (percent: int)
    ensures b < 0 || b > 1 ==> percent == b
    ensures b == 0 ==> percent == 0
    ensures b == 1 ==> percent == 100
  {
    if 0 <= b <= 1 then b * 100 else b
  }

  /**
   * `brightness_handler` with integer arguments: sends when the client is
   * admitted, an argument is present and its percentage lies in 0..100.
   */
  function OnBrightness(allowedIp: string, lastClient: Option<string>, args: seq<int>): (sent: Option<seq<byte>>)
    ensures sent.Some? <==> Admits(allowedIp, lastClient) && |args| > 0 && 0 <= args[0] <= 100
    ensures sent.Some? ==> Decode(sent.value) == Some(Brightness(NormalisedBrightness(args[0]), true))
  {
    if !Admits(allowedIp, lastClient) || |args| == 0 then None
    else
      var percent := NormalisedBrightness(args[0]);
      match BrightnessFrame(percent, true)
      case ValueError(_) => None
      case Ok(frame) =>
        DecodeEncode(Brightness(percent, true));
        Some(frame)
  }
}
