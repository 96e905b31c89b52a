/** The file-size limit of the command-line client against the message-size limit of the wire. */
module OpenFileFits {
  import opened Bytes
  import opened Protocol
  import opened Wrappers
  import Base64
  import Desktop
  import Framing
  import Utf8

  /** Bytes left for the rest of the message when the largest file is sent. */
  const MAX_OVERHEAD := 1_398_100

  lemma {:induction false} PlainBytes(s: string)
    requires Base64.Plain(s)
    ensures |Utf8.Encode(s)| == |s| && Framing.NulFree(Utf8.Encode(s))
  {
    if s != [] {
      PlainBytes(s[1..]);
      assert Base64.PlainChar(s[0]);
    }
  }

  /** The text of an OpenFile request: the content stands unescaped between the JSON text
      before and after it. */
  function Message(before: seq<byte>, data: seq<byte>, after: seq<byte>): seq<byte> {
    before + Utf8.Encode(Base64.Encode(data)) + after
  }

  lemma MessageShape(before: seq<byte>, data: seq<byte>, after: seq<byte>)
    requires Framing.NulFree(before) && Framing.NulFree(after)
    ensures Framing.NulFree(Message(before, data, after))
    ensures |Message(before, data, after)| == |before| + 4 * ((|data| + 2) / 3) + |after|
  {
    Base64.EncodeIsPlain(data);
    PlainBytes(Base64.Encode(data));
  }

  /** A file message is received exactly when its JSON overhead fits beside the content. */
  lemma ReceivedIff(before: seq<byte>, data: seq<byte>, after: seq<byte>, rest: seq<byte>)
    requires Framing.NulFree(before) && Framing.NulFree(after)
    ensures var r := Framing.ReadResult(Framing.Frame(Message(before, data, after)) + rest);
      && (r.Ok? <==> |before| + |after| + 4 * ((|data| + 2) / 3) <= Framing.MAX_MESSAGE_SIZE)
      && (r.Ok? ==> r.value == Message(before, data, after))
  {
    MessageShape(before, data, after);
    Framing.FrameIsReadBack(Message(before, data, after), rest);
  }

  /** Every file the client admits travels, with up to MAX_OVERHEAD bytes of other JSON; with
      the largest file not one byte more does. */
  lemma AdmittedFileTravels(before: seq<byte>, data: seq<byte>, after: seq<byte>, rest: seq<byte>)
    requires Framing.NulFree(before) && Framing.NulFree(after)
    requires |data| <= Desktop.MAX_FILE_SIZE
    ensures var r := Framing.ReadResult(Framing.Frame(Message(before, data, after)) + rest);
      && (|before| + |after| <= MAX_OVERHEAD ==> r == Ok(Message(before, data, after)))
      && (|data| == Desktop.MAX_FILE_SIZE && |before| + |after| > MAX_OVERHEAD ==> r == Err(Framing.TooLarge))
  {
    ReceivedIff(before, data, after, rest);
    MessageShape(before, data, after);
    Framing.FrameIsReadBack(Message(before, data, after), rest);
  }

  /** The device's own size check agrees with the client's: it refuses a file as too large
      exactly when the client would not have sent it, and otherwise answers what the desktop
      made of it. */
  lemma SizeChecksAgree(data: seq<byte>, portalOpens: bool)
    ensures Desktop.HandleOpenFile(Base64.Encode(data), portalOpens)
         == if |data| > 5_242_880 then Err(FileTooLarge(5_242_880))
            else if portalOpens then Ok(Done) else Err(UserDenied)
  {
    Base64.DecodeEncode(data);
  }

  /** Content that cannot be decoded is handed on like a small file. */
  lemma UndecodableIsHandedOn(content: string, portalOpens: bool)
    requires Base64.Decode(content).None?
    ensures Desktop.HandleOpenFile(content, portalOpens) == if portalOpens then Ok(Done) else Err(UserDenied)
  {
  }
}
