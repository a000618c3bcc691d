/** What parseSDP and buildResponseSDP compute. */
module Sdp {
  import opened SdpText
  import opened SdpNumbers

  datatype Codec = Codec(payloadType: int, name: string, clockRate: int, channels: int, fmtp: string)

  datatype Info = Info(
    mediaType: string, mediaPort: int, protocol: string, connectionIP: string,
    hasICE: bool, iceUfrag: string, icePwd: string,
    hasDTLS: bool, fingerprint: string, setup: string,
    hasSRTP: bool, cryptoSuite: string, cryptoKey: string,
    rtcpMux: bool, direction: string, codecs: seq<Codec>)

  const INITIAL := Info("audio", 0, "RTP/AVP", "", false, "", "", false, "", "", false, "", "", false, "sendrecv", [])

  /** The record being filled and the payload types of the media line. */
  datatype Parsing = Parsing(info: Info, payloadTypes: seq<int>)

  // ---- Parsing

  datatype Attribute =
    | Rtpmap | Fmtp | IceUfrag | IcePwd | Fingerprint | Setup | Crypto | RtcpMux | Direction | Other

  function AttributeOf(name: string): Attribute {
    if name == "rtpmap" then Rtpmap
    else if name == "fmtp" then Fmtp
    else if name == "ice-ufrag" then IceUfrag
    else if name == "ice-pwd" then IcePwd
    else if name == "fingerprint" then Fingerprint
    else if name == "setup" then Setup
    else if name == "crypto" then Crypto
    else if name == "rtcp-mux" then RtcpMux
    else if IsDirection(name) then Direction
    else Other
  }

  predicate IsDirection(name: string) {
    name == "sendrecv" || name == "sendonly" || name == "recvonly" || name == "inactive"
  }

  /** Names the first codec with this payload type. */
  function SetFmtp(codecs: seq<Codec>, pt: int, fmtp: string): (cs: seq<Codec>)
    ensures |cs| == |codecs|
  {
    if codecs == [] then []
    else if codecs[0].payloadType == pt then [codecs[0].(fmtp := fmtp)] + codecs[1..]
    else [codecs[0]] + SetFmtp(codecs[1..], pt, fmtp)
  }

  function ParseRtpmap(value: string): seq<Codec> {
    var parts := SplitFields(value);
    if |parts| < 2 then []
    else
      var codecParts := SplitSlash(parts[1]);
      if |codecParts| < 2 then []
      else
        [Codec(ParseInt(parts[0]) % 256, codecParts[0], ParseInt(codecParts[1]) % 0x1_0000_0000,
               if |codecParts| >= 3 then ParseInt(codecParts[2]) else 1, "")]
  }

  function ParseFmtp(value: string, codecs: seq<Codec>): seq<Codec> {
    var parts := SplitFields(value);
    if |parts| < 2 then codecs
    else
      RestHasField(value);
      SetFmtp(codecs, ParseInt(parts[0]), value[|parts[0]| + 1..])
  }

  predicate HasPrefix(s: string, prefix: string) {
    |s| >= |prefix| && s[..|prefix|] == prefix
  }

  function ParseCrypto(value: string, p: Info): Info {
    var parts := SplitFields(value);
    if |parts| < 3 then p.(hasSRTP := true)
    else p.(hasSRTP := true, cryptoSuite := parts[1],
            cryptoKey := if HasPrefix(parts[2], "inline:") then parts[2][7..] else p.cryptoKey)
  }

  function ApplyAttribute(name: string, value: string, p: Info): Info {
    match AttributeOf(name)
    case Rtpmap => p.(codecs := p.codecs + ParseRtpmap(value))
    case Fmtp => p.(codecs := ParseFmtp(value, p.codecs))
    case IceUfrag => p.(hasICE := true, iceUfrag := value)
    case IcePwd => p.(hasICE := true, icePwd := value)
    case Fingerprint => p.(hasDTLS := true, fingerprint := value)
    case Setup => p.(setup := value)
    case Crypto => ParseCrypto(value, p)
    case RtcpMux => p.(rtcpMux := true)
    case Direction => p.(direction := name)
    case Other => p
  }

  function ParseAttribute(text: string, p: Info): Info {
    var i := IndexOf(text, ':');
    if i == -1 then ApplyAttribute(text, "", p) else ApplyAttribute(text[..i], text[i + 1..], p)
  }

  function ParseConnection(value: string, p: Info): Info {
    var parts := SplitFields(value);
    if |parts| < 3 then p
    else
      var i := IndexOf(parts[2], '/');
      p.(connectionIP := if i == -1 then parts[2] else parts[2][..i])
  }

  /** The payload types of the media line; a 64-bit overflow can make one negative, and drops it. */
  function PayloadTypes(formats: seq<string>): seq<int> {
    if formats == [] then []
    else
      var pt := ParseInt(formats[|formats| - 1]);
      PayloadTypes(formats[..|formats| - 1]) + (if pt >= 0 then [pt] else [])
  }

  function ParseMedia(value: string, st: Parsing): Parsing {
    var parts := SplitFields(value);
    if |parts| < 4 then st
    else Parsing(st.info.(mediaType := parts[0], mediaPort := ParseInt(parts[1]), protocol := parts[2]),
                 st.payloadTypes + PayloadTypes(parts[3..]))
  }

  function ParseLine(st: Parsing, line: string): Parsing {
    if |line| < 2 || line[1] != '=' then st
    else if line[0] == 'c' then st.(info := ParseConnection(line[2..], st.info))
    else if line[0] == 'm' then ParseMedia(line[2..], st)
    else if line[0] == 'a' then st.(info := ParseAttribute(line[2..], st.info))
    else st
  }

  function ParseLines(st: Parsing, lines: seq<string>): Parsing {
    if lines == [] then st else ParseLine(ParseLines(st, lines[..|lines| - 1]), lines[|lines| - 1])
  }

  /** The codecs known for static payload types. */
  function StaticCodec(pt: int): seq<Codec> {
    if pt == 0 then [Codec(0, "PCMU", 8000, 1, "")]
    else if pt == 8 then [Codec(8, "PCMA", 8000, 1, "")]
    else if pt == 9 then [Codec(9, "G722", 8000, 1, "")]
    else if pt == 18 then [Codec(18, "G729", 8000, 1, "")]
    else []
  }

  predicate Known(codecs: seq<Codec>, pt: int) {
    exists i :: 0 <= i < |codecs| && codecs[i].payloadType == pt % 256
  }

  /** Codecs for the payload types that no rtpmap line described. */
  function StaticFill(known: seq<Codec>, payloadTypes: seq<int>): seq<Codec> {
    if payloadTypes == [] then []
    else
      var n := |payloadTypes| - 1;
      StaticFill(known, payloadTypes[..n]) +
      (if Known(known, payloadTypes[n]) then [] else StaticCodec(payloadTypes[n]))
  }

  function Parse(sdp: string): Info {
    var st := ParseLines(Parsing(INITIAL, []), SplitLines(sdp));
    st.info.(codecs := st.info.codecs + StaticFill(st.info.codecs, st.payloadTypes))
  }

  // ---- Printing

  predicate ProtocolFlag(flag: string) {
    flag == "RTP/AVP" || flag == "RTP/AVPF" || flag == "RTP/SAVP" || flag == "RTP/SAVPF"
  }

  /** The first protocol flag wins; then DTLS, then SRTP, then what the SDP said. */
  function DetermineProtocol(p: Info, flags: seq<string>): string {
    if flags == [] then
      if p.hasDTLS then "UDP/TLS/RTP/SAVPF" else if p.hasSRTP then "RTP/SAVP" else p.protocol
    else if ProtocolFlag(flags[0]) then flags[0]
    else DetermineProtocol(p, flags[1..])
  }

  function ConnectionOf(p: Info, ip: string, flags: seq<string>): string {
    if "replace-session-connection" in flags || "replace-origin" in flags || p.connectionIP == "" then ip
    else p.connectionIP
  }

  function FormatList(codecs: seq<Codec>): string {
    if codecs == [] then ""
    else FormatList(codecs[..|codecs| - 1]) + " " + IntToString(codecs[|codecs| - 1].payloadType)
  }

  function MediaLine(p: Info, port: int, flags: seq<string>): string {
    "m=" + p.mediaType + " " + IntToString(port) + " " + DetermineProtocol(p, flags) + FormatList(p.codecs)
  }

  function RtpmapText(c: Codec): string {
    IntToString(c.payloadType) + " " + c.name + "/" + IntToString(c.clockRate) +
    (if c.channels > 1 then "/" + IntToString(c.channels) else "")
  }

  function CodecLines(c: Codec): seq<string> {
    ["a=rtpmap:" + RtpmapText(c)] +
    (if c.fmtp != "" then ["a=fmtp:" + IntToString(c.payloadType) + " " + c.fmtp] else [])
  }

  function AllCodecLines(codecs: seq<Codec>): seq<string> {
    if codecs == [] then []
    else AllCodecLines(codecs[..|codecs| - 1]) + CodecLines(codecs[|codecs| - 1])
  }

  predicate PrintsMux(p: Info, flags: seq<string>) {
    p.rtcpMux || "rtcp-mux-offer" in flags
  }

  predicate PrintsICE(p: Info, flags: seq<string>) {
    "ICE=remove" !in flags && (p.hasICE || "ICE=force" in flags)
  }

  predicate PrintsDTLS(p: Info, flags: seq<string>) {
    p.hasDTLS && "DTLS=off" !in flags
  }

  predicate PrintsCrypto(p: Info, flags: seq<string>) {
    p.hasSRTP && "SDES=off" !in flags && !p.hasDTLS
  }

  /** `a=<name>:<value>` when the value is to be printed. */
  function Optional(shown: bool, name: string, value: string): seq<string> {
    if shown && value != "" then ["a=" + name + ":" + value] else []
  }

  function HeaderLines(p: Info, ip: string, port: int, flags: seq<string>): seq<string> {
    ["v=0", "o=karl 1 1 IN IP4 " + ip, "s=Karl Media Server", "c=IN IP4 " + ConnectionOf(p, ip, flags), "t=0 0",
     MediaLine(p, port, flags)]
  }

  function TailLines(p: Info, flags: seq<string>): seq<string> {
    ["a=" + p.direction] +
    (if PrintsMux(p, flags) then ["a=rtcp-mux"] else []) +
    Optional(PrintsICE(p, flags), "ice-ufrag", p.iceUfrag) +
    Optional(PrintsICE(p, flags), "ice-pwd", p.icePwd) +
    Optional(PrintsDTLS(p, flags), "fingerprint", p.fingerprint) +
    Optional(PrintsDTLS(p, flags), "setup", p.setup) +
    (if PrintsCrypto(p, flags) then ["a=crypto:1 " + p.cryptoSuite + " inline:" + p.cryptoKey] else [])
  }

  function Lines(p: Info, ip: string, port: int, flags: seq<string>): seq<string> {
    HeaderLines(p, ip, port, flags) + AllCodecLines(p.codecs) + TailLines(p, flags)
  }

  function Build(p: Info, ip: string, port: int, flags: seq<string>): string {
    Render(Lines(p, ip, port, flags))
  }
}
