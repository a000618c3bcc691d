/** The SDP code as it runs: scanning loops, a record filled in place, a byte buffer appended to. */
module SdpListener {
  import opened SdpText
  import opened SdpNumbers
  import opened Sdp

  /** Scanning one more character extends the pieces found so far. */
  lemma ScanStep(s: string, i: nat, isSep: char -> bool)
    requires i < |s|
    ensures Pieces(s[..i + 1], isSep) == ExtendPieces(Pieces(s[..i], isSep), s[i], isSep)
  {
    assert s[..i + 1] == s[..i] + [s[i]];
    PiecesSnoc(s[..i], s[i], isSep);
  }

  lemma NonEmptySnoc(ps: seq<string>, p: string)
    ensures NonEmpty(ps + [p]) == NonEmpty(ps) + (if p == "" then [] else [p])
  {
    NonEmptyConcat(ps, [p]);
    NonEmptyOfOne(p);
  }

  lemma StripSnoc(ps: seq<string>, p: string)
    ensures StripAll(ps + [p]) == StripAll(ps) + [StripCR(p)]
  {}

  method SplitSDPLines(sdp: string) returns (result: seq<string>)
    ensures result == SplitLines(sdp)
  {
    hide Pieces, NonEmpty, StripAll;
    result := [];
    ghost var done: seq<string> := [];
    var start, i := 0, 0;
    PiecesOfOne("", IsNewline);
    NoPieces();
    while i < |sdp|
      invariant 0 <= start <= i <= |sdp|
      invariant Pieces(sdp[..i], IsNewline) == done + [sdp[start..i]]
      invariant result == NonEmpty(StripAll(done))
    {
      ScanStep(sdp, i, IsNewline);
      if sdp[i] == '\n' {
        var line := sdp[start..i];
        StripSnoc(done, line);
        NonEmptySnoc(StripAll(done), StripCR(line));
        done := done + [line];
        if |line| > 0 && line[|line| - 1] == '\r' {
          line := line[..|line| - 1];
        }
        if |line| > 0 {
          result := result + [line];
        }
        start := i + 1;
        assert sdp[i + 1..i + 1] == "";
      } else {
        assert sdp[start..i + 1] == sdp[start..i] + [sdp[i]];
      }
      i := i + 1;
    }
    assert sdp[..i] == sdp;
    StripSnoc(done, sdp[start..]);
    NonEmptySnoc(StripAll(done), StripCR(sdp[start..]));
    if start < |sdp| {
      var line := sdp[start..];
      if |line| > 0 && line[|line| - 1] == '\r' {
        line := line[..|line| - 1];
      }
      if |line| > 0 {
        result := result + [line];
      }
    }
  }

  lemma NoPieces()
    ensures NonEmpty([]) == [] && NonEmpty(StripAll([])) == []
  {}

  method SplitTextFields(s: string) returns (result: seq<string>)
    ensures result == SplitFields(s)
  {
    hide Pieces, NonEmpty;
    result := [];
    ghost var done: seq<string> := [];
    var start, i, inField := 0, 0, false;
    PiecesOfOne("", IsBlank);
    NoPieces();
    while i < |s|
      invariant 0 <= start <= i <= |s| && (inField ==> start < i)
      invariant Pieces(s[..i], IsBlank) == done + [if inField then s[start..i] else ""]
      invariant result == NonEmpty(done)
    {
      ScanStep(s, i, IsBlank);
      if s[i] == ' ' || s[i] == '\t' {
        NonEmptySnoc(done, if inField then s[start..i] else "");
        done := done + [if inField then s[start..i] else ""];
        if inField {
          result := result + [s[start..i]];
          inField := false;
        }
      } else {
        if !inField {
          start := i;
          inField := true;
        }
        assert s[start..i + 1] == s[start..i] + [s[i]];
      }
      i := i + 1;
    }
    assert s[..i] == s && s[start..i] == s[start..];
    NonEmptySnoc(done, if inField then s[start..] else "");
    if inField {
      result := result + [s[start..]];
    }
  }

  method SplitBySlash(s: string) returns (result: seq<string>)
    ensures result == SplitSlash(s)
  {
    hide Pieces;
    result := [];
    var start, i := 0, 0;
    PiecesOfOne("", IsSlash);
    while i < |s|
      invariant 0 <= start <= i <= |s|
      invariant Pieces(s[..i], IsSlash) == result + [s[start..i]]
    {
      ScanStep(s, i, IsSlash);
      if s[i] == '/' {
        result := result + [s[start..i]];
        start := i + 1;
        assert s[i + 1..i + 1] == "";
      } else {
        assert s[start..i + 1] == s[start..i] + [s[i]];
      }
      i := i + 1;
    }
    assert s[..i] == s && s[start..i] == s[start..];
    result := result + [s[start..]];
  }

  method FindChar(s: string, c: char) returns (r: int)
    ensures r == IndexOf(s, c)
  {
    var i := 0;
    while i < |s|
      invariant 0 <= i <= |s| && c !in s[..i]
    {
      if s[i] == c {
        assert s == s[..i] + [c] + s[i + 1..];
        IndexOfFirst(s[..i], c, s[i + 1..]);
        return i;
      }
      assert s[..i + 1] == s[..i] + [s[i]];
      i := i + 1;
    }
    assert s[..i] == s;
    return -1;
  }

  method ParseDecimal(s: string) returns (result: int)
    ensures result == ParseInt(s)
  {
    result := 0;
    var i := 0;
    assert s[0..] == s;
    while i < |s| && IsDigit(s[i])
      invariant 0 <= i <= |s|
      invariant ParseFrom(result, s[i..]) == ParseInt(s)
    {
      assert s[i..][1..] == s[i + 1..] && s[i..][0] == s[i];
      result := Wrap64(result * 10 + DigitValue(s[i]));
      i := i + 1;
    }
    if i < |s| {
      assert s[i..][0] == s[i];
    }
  }

  function Reversed(s: string): (r: string)
    ensures |r| == |s|
  {
    seq(|s|, i requires 0 <= i < |s| => s[|s| - 1 - i])
  }

  function Significant(n: nat): string {
    if n == 0 then "" else IntToString(n)
  }

  lemma PrintStep(n: nat, digits: string)
    requires n > 0
    ensures Significant(n) + Reversed(digits) == Significant(n / 10) + Reversed(digits + [Digit(n % 10)])
  {
    SignificantStep(n);
    ReversedSnoc(digits, Digit(n % 10));
    hide Significant, Digit, Reversed;
    assert Significant(n / 10) + ([Digit(n % 10)] + Reversed(digits)) ==
           Significant(n / 10) + [Digit(n % 10)] + Reversed(digits);
  }

  lemma SetFmtpStart(cs: seq<Codec>, pt: int, fmtp: string)
    ensures cs[..0] + SetFmtp(cs[0..], pt, fmtp) == SetFmtp(cs, pt, fmtp)
    ensures cs[..|cs|] + SetFmtp(cs[|cs|..], pt, fmtp) == cs
  {
    assert cs[0..] == cs && cs[|cs|..] == [];
  }

  lemma SetFmtpStep(cs: seq<Codec>, i: nat, pt: int, fmtp: string)
    requires i < |cs|
    ensures cs[..i] + SetFmtp(cs[i..], pt, fmtp) ==
              if cs[i].payloadType == pt then cs[i := cs[i].(fmtp := fmtp)]
                 else cs[..i + 1] + SetFmtp(cs[i + 1..], pt, fmtp)
  {
    var rest := SetFmtp(cs[i + 1..], pt, fmtp);
    assert cs[i..][0] == cs[i] && cs[i..][1..] == cs[i + 1..];
    if cs[i].payloadType == pt {
      assert cs[i := cs[i].(fmtp := fmtp)] == cs[..i] + ([cs[i].(fmtp := fmtp)] + cs[i + 1..]);
    } else {
      assert SetFmtp(cs[i..], pt, fmtp) == [cs[i]] + rest;
      assert cs[..i + 1] == cs[..i] + [cs[i]];
    }
  }

  lemma SignificantStep(n: nat)
    requires n > 0
    ensures Significant(n) == Significant(n / 10) + [Digit(n % 10)]
  {}

  lemma ReversedSnoc(digits: string, d: char)
    ensures Reversed(digits + [d]) == [d] + Reversed(digits)
  {}

  method FormatDecimal(number: int) returns (text: string)
    ensures text == IntToString(number)
  {
    hide Significant, Digit;
    if number == 0 {
      PrintZero();
      return "0";
    }
    var n := number;
    var digits := "";
    ghost var whole := if number > 0 then Significant(number) else "";
    assert whole == whole + Reversed(digits);
    while n > 0
      invariant if number < 0 then n == number && digits == "" else n >= 0 && whole == Significant(n) + Reversed(digits)
    {
      PrintStep(n, digits);
      digits := digits + [Digit(n % 10)];
      n := n / 10;
    }
    NothingSignificant(number);
    var buf := new char[|digits|](i requires 0 <= i < |digits| => digits[i]);
    assert buf[..] == digits;
    ReverseInPlace(buf);
    text := buf[..];
  }

  lemma PrintZero()
    ensures IntToString(0) == "0"
  {}

  lemma NothingSignificant(number: int)
    ensures Significant(0) == "" && (number < 0 ==> IntToString(number) == "" == Reversed(""))
    ensures number > 0 ==> Significant(number) == IntToString(number)
  {}

  method ReverseInPlace(buf: array<char>)
    modifies buf
    ensures buf[..] == Reversed(old(buf[..]))
  {
    var i, j := 0, buf.Length - 1;
    while i < j
      invariant 0 <= i <= buf.Length && j == buf.Length - 1 - i
      invariant forall k :: 0 <= k < buf.Length ==>
                  buf[k] == if k < i || k > j then old(buf[buf.Length - 1 - k]) else old(buf[k])
      decreases j - i
    {
      buf[i], buf[j] := buf[j], buf[i];
      i, j := i + 1, j - 1;
    }
  }

  /** The record under construction, with the media line's payload types. */
  class Parser {
    var info: Info
    var payloadTypes: seq<int>

    constructor ()
      ensures State() == Parsing(INITIAL, [])
    {
      info, payloadTypes := INITIAL, [];
    }

    ghost function State(): Parsing
      reads this
    {
      Parsing(info, payloadTypes)
    }

    method SetCodecFmtp(pt: int, fmtp: string)
      modifies this`info
      ensures info == old(info).(codecs := SetFmtp(old(info).codecs, pt, fmtp))
    {
      hide SetFmtp;
      var cs := info.codecs;
      var i := 0;
      SetFmtpStart(cs, pt, fmtp);
      while i < |cs|
        invariant 0 <= i <= |cs| && info == old(info)
        invariant cs[..i] + SetFmtp(cs[i..], pt, fmtp) == SetFmtp(cs, pt, fmtp)
      {
        SetFmtpStep(cs, i, pt, fmtp);
        if cs[i].payloadType == pt {
          info := info.(codecs := cs[i := cs[i].(fmtp := fmtp)]);
          return;
        }
        i := i + 1;
      }
    }

    method ParseRtpmapValue(value: string)
      modifies this`info
      ensures info == old(info).(codecs := old(info).codecs + ParseRtpmap(value))
    {
      hide SplitFields, SplitSlash, ParseInt;
      var parts := SplitTextFields(value);
      if |parts| >= 2 {
        var pt := ParseDecimal(parts[0]);
        var codecParts := SplitBySlash(parts[1]);
        if |codecParts| >= 2 {
          var rate := ParseDecimal(codecParts[1]);
          var codec := Codec(pt % 256, codecParts[0], rate % 0x1_0000_0000, 1, "");
          if |codecParts| >= 3 {
            var channels := ParseDecimal(codecParts[2]);
            codec := codec.(channels := channels);
          }
          info := info.(codecs := info.codecs + [codec]);
        }
      }
    }

    method ParseFmtpValue(value: string)
      modifies this`info
      ensures info == old(info).(codecs := ParseFmtp(value, old(info).codecs))
    {
      hide SplitFields, ParseInt, SetFmtp;
      var parts := SplitTextFields(value);
      if |parts| >= 2 {
        RestHasField(value);
        var pt := ParseDecimal(parts[0]);
        SetCodecFmtp(pt, value[|parts[0]| + 1..]);
      }
    }

    method ParseSDPAttribute(text: string)
      modifies this`info
      ensures info == Sdp.ParseAttribute(text, old(info))
    {
      hide SplitFields, ParseRtpmap, ParseFmtp, IndexOf, IsDirection;
      var colon := FindChar(text, ':');
      var name, value := text, "";
      if colon != -1 {
        name, value := text[..colon], text[colon + 1..];
      }
      match AttributeOf(name)
      case Rtpmap => ParseRtpmapValue(value);
      case Fmtp => ParseFmtpValue(value);
      case IceUfrag => info := info.(hasICE := true, iceUfrag := value);
      case IcePwd => info := info.(hasICE := true, icePwd := value);
      case Fingerprint => info := info.(hasDTLS := true, fingerprint := value);
      case Setup => info := info.(setup := value);
      case Crypto =>
        info := info.(hasSRTP := true);
        var parts := SplitTextFields(value);
        if |parts| >= 3 {
          info := info.(cryptoSuite := parts[1]);
          if HasPrefix(parts[2], "inline:") {
            info := info.(cryptoKey := parts[2][7..]);
          }
        }
      case RtcpMux => info := info.(rtcpMux := true);
      case Direction => info := info.(direction := name);
      case Other =>
    }

    method ParseMediaValue(value: string)
      modifies this
      ensures State() == ParseMedia(value, old(State()))
    {
      hide SplitFields, ParseInt;
      var parts := SplitTextFields(value);
      if |parts| >= 4 {
        var port := ParseDecimal(parts[1]);
        info := info.(mediaType := parts[0], mediaPort := port, protocol := parts[2]);
        var i := 3;
        while i < |parts|
          invariant 3 <= i <= |parts|
          invariant info == old(info).(mediaType := parts[0], mediaPort := port, protocol := parts[2])
          invariant payloadTypes == old(payloadTypes) + PayloadTypes(parts[3..i])
        {
          assert parts[3..i + 1][..i - 3] == parts[3..i];
          var pt := ParseDecimal(parts[i]);
          if pt >= 0 {
            payloadTypes := payloadTypes + [pt];
          }
          i := i + 1;
        }
        assert parts[3..i] == parts[3..];
      }
    }

    method ParseOne(line: string)
      modifies this
      ensures State() == ParseLine(old(State()), line)
    {
      hide SplitFields, ParseAttribute, ParseMedia, IndexOf;
      if |line| < 2 || line[1] != '=' {
        return;
      }
      var value := line[2..];
      if line[0] == 'c' {
        var parts := SplitTextFields(value);
        if |parts| >= 3 {
          var address := parts[2];
          var slash := FindChar(address, '/');
          if slash != -1 {
            address := address[..slash];
          }
          info := info.(connectionIP := address);
        }
      } else if line[0] == 'm' {
        ParseMediaValue(value);
      } else if line[0] == 'a' {
        ParseSDPAttribute(value);
      }
    }

    method FillStaticCodecs()
      modifies this`info
      ensures info == old(info).(codecs := old(info).codecs + StaticFill(old(info).codecs, payloadTypes))
    {
      hide StaticCodec;
      var existing := set c | c in info.codecs :: c.payloadType;
      var i := 0;
      while i < |payloadTypes|
        invariant 0 <= i <= |payloadTypes|
        invariant info == old(info).(codecs := old(info).codecs + StaticFill(old(info).codecs, payloadTypes[..i]))
      {
        assert payloadTypes[..i + 1][..i] == payloadTypes[..i];
        var pt := payloadTypes[i];
        assert pt % 256 in existing <==> Known(old(info).codecs, pt);
        if pt % 256 !in existing {
          info := info.(codecs := info.codecs + StaticCodec(pt));
        }
        i := i + 1;
      }
      assert payloadTypes[..i] == payloadTypes;
    }
  }

  method ParseSDP(sdp: string) returns (info: Info)
    ensures info == Parse(sdp)
  {
    hide ParseLine, SplitLines, StaticFill;
    var lines := SplitSDPLines(sdp);
    var parser := new Parser();
    var i := 0;
    while i < |lines|
      invariant 0 <= i <= |lines| && parser.State() == ParseLines(Parsing(INITIAL, []), lines[..i])
    {
      assert lines[..i + 1][..i] == lines[..i];
      parser.ParseOne(lines[i]);
      i := i + 1;
    }
    assert lines[..i] == lines;
    parser.FillStaticCodecs();
    info := parser.info;
  }

  method ContainsFlag(flags: seq<string>, flag: string) returns (found: bool)
    ensures found <==> flag in flags
  {
    var i := 0;
    while i < |flags|
      invariant 0 <= i <= |flags| && flag !in flags[..i]
    {
      if flags[i] == flag {
        return true;
      }
      assert flags[..i + 1] == flags[..i] + [flags[i]];
      i := i + 1;
    }
    assert flags[..i] == flags;
    return false;
  }

  method ChooseProtocol(p: Info, flags: seq<string>) returns (protocol: string)
    ensures protocol == DetermineProtocol(p, flags)
  {
    hide ProtocolFlag;
    var i := 0;
    assert flags[0..] == flags;
    while i < |flags|
      invariant 0 <= i <= |flags| && DetermineProtocol(p, flags[i..]) == DetermineProtocol(p, flags)
    {
      assert flags[i..][0] == flags[i] && flags[i..][1..] == flags[i + 1..];
      if ProtocolFlag(flags[i]) {
        return flags[i];
      }
      i := i + 1;
    }
    if p.hasDTLS {
      return "UDP/TLS/RTP/SAVPF";
    }
    if p.hasSRTP {
      return "RTP/SAVP";
    }
    return p.protocol;
  }

  lemma RenderSnoc(lines: seq<string>, line: string)
    ensures Render(lines + [line]) == Render(lines) + line + "\r\n"
  {
    RenderConcat(lines, [line]);
    assert Render([line]) == line + "\r\n" + Render([]) by { assert [line][1..] == []; }
  }

  /** The byte buffer an answer is appended to; `lines` are the finished lines in it. */
  class Answer {
    var sb: string
    ghost var lines: seq<string>
    ghost var partial: string

    constructor ()
      ensures Valid() && lines == [] && partial == ""
    {
      sb, lines, partial := "", [], "";
    }

    ghost predicate Valid()
      reads this
    {
      sb == Render(lines) + partial
    }

    method Append(text: string)
      requires Valid()
      modifies this`sb, this`partial
      ensures Valid() && partial == old(partial) + text
    {
      sb := sb + text;
      partial := partial + text;
    }

    method EndLine()
      requires Valid()
      modifies this
      ensures Valid() && partial == "" && lines == old(lines) + [old(partial)]
    {
      RenderSnoc(lines, partial);
      sb := sb + "\r\n";
      lines := lines + [partial];
      partial := "";
    }

    method Line(text: string)
      requires Valid() && partial == ""
      modifies this
      ensures Valid() && partial == "" && lines == old(lines) + [text]
    {
      Append(text);
      assert partial == text;
      EndLine();
    }

    method Attribute(name: string, value: string)
      requires Valid() && partial == ""
      modifies this
      ensures Valid() && partial == "" && lines == old(lines) + ["a=" + name + ":" + value]
    {
      hide Render;
      Append("a=");
      Append(name);
      Append(":");
      Append(value);
      assert partial == "a=" + name + ":" + value;
      EndLine();
    }

    method Header(p: Info, ip: string, port: int, flags: seq<string>)
      requires Valid() && lines == [] && partial == ""
      modifies this
      ensures Valid() && partial == "" && lines == HeaderLines(p, ip, port, flags)
    {
      hide Render, FormatList, DetermineProtocol, IntToString;
      var replaceOrigin := ContainsFlag(flags, "replace-origin");
      var replaceConnection := ContainsFlag(flags, "replace-session-connection");
      Line("v=0");
      Line("o=karl 1 1 IN IP4 " + ip);
      Line("s=Karl Media Server");
      if replaceConnection || replaceOrigin {
        Line("c=IN IP4 " + ip);
      } else if p.connectionIP != "" {
        Line("c=IN IP4 " + p.connectionIP);
      } else {
        Line("c=IN IP4 " + ip);
      }
      Line("t=0 0");
      Media(p, port, flags);
    }

    method Media(p: Info, port: int, flags: seq<string>)
      requires Valid() && partial == ""
      modifies this
      ensures Valid() && partial == "" && lines == old(lines) + [MediaLine(p, port, flags)]
    {
      hide Render, DetermineProtocol, IntToString;
      var protocol := ChooseProtocol(p, flags);
      var portText := FormatDecimal(port);
      Append("m=" + p.mediaType + " " + portText + " " + protocol);
      ghost var head := partial;
      assert head == "m=" + p.mediaType + " " + portText + " " + protocol;
      var i := 0;
      assert p.codecs[..0] == [];
      assert head + "" == head;
      while i < |p.codecs|
        invariant 0 <= i <= |p.codecs| && Valid() && lines == old(lines)
        invariant partial == head + FormatList(p.codecs[..i])
      {
        assert p.codecs[..i + 1][..i] == p.codecs[..i];
        var text := FormatDecimal(p.codecs[i].payloadType);
        Append(" " + text);
        assert head + FormatList(p.codecs[..i]) + (" " + text) == head + (FormatList(p.codecs[..i]) + " " + text);
        i := i + 1;
      }
      assert p.codecs[..i] == p.codecs;
      EndLine();
    }

    method Codecs(codecs: seq<Codec>)
      requires Valid() && partial == ""
      modifies this
      ensures Valid() && partial == "" && lines == old(lines) + AllCodecLines(codecs)
    {
      hide Render, CodecLines;
      var i := 0;
      assert codecs[..0] == [];
      assert old(lines) + [] == old(lines);
      while i < |codecs|
        invariant 0 <= i <= |codecs| && Valid() && partial == ""
        invariant lines == old(lines) + AllCodecLines(codecs[..i])
      {
        assert codecs[..i + 1][..i] == codecs[..i];
        OneCodec(codecs[i]);
        assert old(lines) + AllCodecLines(codecs[..i]) + CodecLines(codecs[i]) ==
               old(lines) + (AllCodecLines(codecs[..i]) + CodecLines(codecs[i]));
        i := i + 1;
      }
      assert codecs[..i] == codecs;
    }

    method OneCodec(c: Codec)
      requires Valid() && partial == ""
      modifies this
      ensures Valid() && partial == "" && lines == old(lines) + CodecLines(c)
    {
      hide Render, IntToString;
      var pt := FormatDecimal(c.payloadType);
      var rate := FormatDecimal(c.clockRate);
      Append("a=rtpmap:");
      Append(pt + " " + c.name + "/" + rate);
      if c.channels > 1 {
        var channels := FormatDecimal(c.channels);
        Append("/" + channels);
      }
      assert partial == "a=rtpmap:" + RtpmapText(c);
      EndLine();
      if c.fmtp != "" {
        Line("a=fmtp:" + pt + " " + c.fmtp);
      }
    }

    /** Two attributes printed under one condition, each only if it has a value. */
    method Pair(shown: bool, name1: string, value1: string, name2: string, value2: string)
      requires Valid() && partial == ""
      modifies this
      ensures Valid() && partial == ""
      ensures lines == old(lines) + Optional(shown, name1, value1) + Optional(shown, name2, value2)
    {
      hide Render;
      if shown {
        if value1 != "" {
          Attribute(name1, value1);
        }
        if value2 != "" {
          Attribute(name2, value2);
        }
      }
    }

    method Tail(p: Info, flags: seq<string>)
      requires Valid() && partial == ""
      modifies this
      ensures Valid() && partial == "" && lines == old(lines) + TailLines(p, flags)
    {
      hide Render, Optional;
      var removeICE := ContainsFlag(flags, "ICE=remove");
      var forceICE := ContainsFlag(flags, "ICE=force");
      var muxOffer := ContainsFlag(flags, "rtcp-mux-offer");
      var dtlsOff := ContainsFlag(flags, "DTLS=off");
      var sdesOff := ContainsFlag(flags, "SDES=off");
      Line("a=" + p.direction);
      if p.rtcpMux || muxOffer {
        Line("a=rtcp-mux");
      }
      ghost var front := ["a=" + p.direction] + (if PrintsMux(p, flags) then ["a=rtcp-mux"] else []);
      assert lines == old(lines) + front;
      var ice := !removeICE && (p.hasICE || forceICE);
      var dtls := p.hasDTLS && !dtlsOff;
      assert ice == PrintsICE(p, flags) && dtls == PrintsDTLS(p, flags);
      hide PrintsMux, PrintsICE, PrintsDTLS;
      Pair(ice, "ice-ufrag", p.iceUfrag, "ice-pwd", p.icePwd);
      Pair(dtls, "fingerprint", p.fingerprint, "setup", p.setup);
      ghost var crypto := "a=crypto:1 " + p.cryptoSuite + " inline:" + p.cryptoKey;
      if p.hasSRTP && !sdesOff && !p.hasDTLS {
        Line("a=crypto:1 " + p.cryptoSuite + " inline:" + p.cryptoKey);
      }
      Regroup(old(lines), front, Optional(ice, "ice-ufrag", p.iceUfrag), Optional(ice, "ice-pwd", p.icePwd),
              Optional(dtls, "fingerprint", p.fingerprint), Optional(dtls, "setup", p.setup),
              if PrintsCrypto(p, flags) then [crypto] else []);
    }
  }

  lemma Regroup<T>(a: seq<T>, b: seq<T>, c: seq<T>, d: seq<T>, e: seq<T>, f: seq<T>, g: seq<T>)
    ensures a + b + c + d + e + f + g == a + (b + c + d + e + f + g)
    ensures a + b + c + d + e + f + [] == a + b + c + d + e + f
  {}

  method BuildResponseSDP(p: Info, ip: string, port: int, flags: seq<string>) returns (text: string)
    ensures text == Build(p, ip, port, flags)
  {
    hide Render, HeaderLines, AllCodecLines, TailLines;
    var answer := new Answer();
    answer.Header(p, ip, port, flags);
    answer.Codecs(p.codecs);
    answer.Tail(p, flags);
    text := answer.sb;
    assert text == Render(Lines(p, ip, port, flags)) + "";
  }
}
