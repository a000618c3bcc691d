/** Printing then parsing: what comes back, and when a second pass changes nothing. */
module SdpRoundTrip {
  import opened SdpText
  import opened SdpNumbers
  import opened Sdp
  import opened SdpWellFormed

  function Normal(c: Codec): Codec {
    c.(channels := if c.channels > 1 then c.channels else 1)
  }

  function Normals(codecs: seq<Codec>): (cs: seq<Codec>)
    ensures |cs| == |codecs|
  {
    seq(|codecs|, i requires 0 <= i < |codecs| => Normal(codecs[i]))
  }

  /** What parsing the printed form of p yields, field by field. */
  function Reparsed(p: Info, ip: string, port: int, flags: seq<string>): Info {
    var media := p.codecs != [];
    var ice := PrintsICE(p, flags);
    var dtls := PrintsDTLS(p, flags);
    var crypto := PrintsCrypto(p, flags);
    Info(if media then p.mediaType else "audio", if media then port else 0,
         if media then DetermineProtocol(p, flags) else "RTP/AVP",
         ConnectionOf(p, ip, flags),
         ice && (p.iceUfrag != "" || p.icePwd != ""), if ice then p.iceUfrag else "", if ice then p.icePwd else "",
         dtls && p.fingerprint != "", if dtls then p.fingerprint else "", if dtls then p.setup else "",
         crypto, if crypto then p.cryptoSuite else "", if crypto then p.cryptoKey else "",
         PrintsMux(p, flags), p.direction, Normals(p.codecs))
  }

  // ---- One line at a time

  lemma DigitsClean(n: int)
    ensures Clean(IntToString(n)) && Without(IntToString(n), IsSlash)
  {
    hide IntToString;
  }

  lemma {:induction false} ParseLinesConcat(st: Parsing, a: seq<string>, b: seq<string>)
    ensures ParseLines(st, a + b) == ParseLines(ParseLines(st, a), b)
    decreases |b|
  {
    hide ParseLine;
    if b == [] {
      assert a + b == a;
    } else {
      assert (a + b)[..|a + b| - 1] == a + b[..|b| - 1];
      ParseLinesConcat(st, a, b[..|b| - 1]);
    }
  }

  lemma ParseOneLine(st: Parsing, line: string)
    ensures ParseLines(st, [line]) == ParseLine(st, line)
  {
    hide ParseLine;
    assert [line][..0] == [];
  }

  lemma ThreeFields(a: string, b: string, c: string)
    requires Clean(a) && Clean(b) && Clean(c)
    ensures SplitFields(a + " " + b + " " + c) == SplitFields(a) + SplitFields(b) + SplitFields(c)
  {
    hide SplitFields;
    FieldsOfJoin(a + " " + b, ' ', c);
    FieldsOfJoin(a, ' ', b);
  }

  lemma ConnectionLine(st: Parsing, ip: string)
    requires Clean(ip) && Without(ip, IsSlash)
    ensures ParseLine(st, "c=IN IP4 " + ip) ==
            st.(info := st.info.(connectionIP := if ip == "" then st.info.connectionIP else ip))
  {
    hide SplitFields;
    var line := "c=IN IP4 " + ip;
    assert line[2..] == "IN" + " " + "IP4" + " " + ip;
    ThreeFields("IN", "IP4", ip);
    FieldsOfToken("IN");
    FieldsOfToken("IP4");
    FieldsOfToken(ip);
    if ip != "" {
      assert IndexOf(ip, '/') == -1;
    }
  }

  function Formats(codecs: seq<Codec>): (fs: seq<string>)
    ensures |fs| == |codecs|
  {
    seq(|codecs|, i requires 0 <= i < |codecs| => IntToString(codecs[i].payloadType))
  }

  lemma {:induction false} FieldsOfFormats(head: string, codecs: seq<Codec>)
    requires forall i :: 0 <= i < |codecs| ==> codecs[i].payloadType >= 0
    ensures SplitFields(head + FormatList(codecs)) == SplitFields(head) + Formats(codecs)
  {
    hide SplitFields, IntToString;
    if codecs == [] {
      assert head + "" == head;
    } else {
      var (cs, c) := (codecs[..|codecs| - 1], codecs[|codecs| - 1]);
      FieldsOfFormats(head, cs);
      var text := IntToString(c.payloadType);
      assert head + FormatList(codecs) == (head + FormatList(cs)) + [' '] + text;
      FieldsOfJoin(head + FormatList(cs), ' ', text);
      DigitsClean(c.payloadType);
      FieldsOfToken(text);
      assert Formats(codecs) == Formats(cs) + [text];
    }
  }

  function TypesOf(codecs: seq<Codec>): (pts: seq<int>)
    ensures |pts| == |codecs|
  {
    seq(|codecs|, i requires 0 <= i < |codecs| => codecs[i].payloadType)
  }

  lemma {:induction false} TypesOfFormats(codecs: seq<Codec>)
    requires forall i :: 0 <= i < |codecs| ==> 0 <= codecs[i].payloadType < 256
    ensures PayloadTypes(Formats(codecs)) == TypesOf(codecs)
  {
    hide ParseInt, IntToString;
    if codecs != [] {
      var n := |codecs| - 1;
      TypesOfFormats(codecs[..n]);
      ParsePrinted(codecs[n].payloadType);
      assert Formats(codecs)[..n] == Formats(codecs[..n]);
      assert TypesOf(codecs) == TypesOf(codecs[..n]) + [codecs[n].payloadType];
    }
  }

  lemma MediaLineParses(st: Parsing, p: Info, port: int, flags: seq<string>)
    requires WellFormed(p) && 0 <= port < TWO63
    ensures ParseLine(st, MediaLine(p, port, flags)) ==
            if p.codecs == [] then st
            else Parsing(st.info.(mediaType := p.mediaType, mediaPort := port, protocol := DetermineProtocol(p, flags)),
                         st.payloadTypes + TypesOf(p.codecs))
  {
    hide SplitFields, IntToString, ParseInt, DetermineProtocol, FormatList, PayloadTypes, FirstOnly;
    var proto := DetermineProtocol(p, flags);
    ProtocolIsToken(p, flags);
    DigitsClean(port);
    var head := p.mediaType + " " + IntToString(port) + " " + proto;
    var line := MediaLine(p, port, flags);
    assert line[0] == 'm' && line[1] == '=' && line[2..] == head + FormatList(p.codecs);
    FieldsOfFormats(head, p.codecs);
    ThreeFields(p.mediaType, IntToString(port), proto);
    FieldsOfToken(p.mediaType);
    FieldsOfToken(IntToString(port));
    FieldsOfToken(proto);
    assert SplitFields(line[2..]) == [p.mediaType, IntToString(port), proto] + Formats(p.codecs);
    ParsePrinted(port);
    TypesOfFormats(p.codecs);
  }

  lemma {:induction false} ProtocolIsToken(p: Info, flags: seq<string>)
    requires Token(p.protocol)
    ensures Token(DetermineProtocol(p, flags))
    decreases flags
  {
    if flags != [] && !ProtocolFlag(flags[0]) {
      ProtocolIsToken(p, flags[1..]);
    }
  }

  lemma AttributeLine(st: Parsing, name: string, value: string)
    requires ':' !in name
    ensures ParseLine(st, "a=" + name + ":" + value) == st.(info := ApplyAttribute(name, value, st.info))
  {
    hide ApplyAttribute, IndexOf;
    var line := "a=" + name + ":" + value;
    assert line[0] == 'a' && line[1] == '=' && line[2..] == name + [':'] + value;
    IndexOfFirst(name, ':', value);
    var text := name + [':'] + value;
    assert text[..|name|] == name && text[|name| + 1..] == value;
  }

  lemma PlainAttributeLine(st: Parsing, name: string)
    requires ':' !in name
    ensures ParseLine(st, "a=" + name) == st.(info := ApplyAttribute(name, "", st.info))
  {
    hide ApplyAttribute;
    var line := "a=" + name;
    assert line[2..] == name;
  }

  lemma SlashParts(c: Codec)
    requires CodecOk(c)
    ensures var count := if c.channels > 1 then "/" + IntToString(c.channels) else "";
            var text := c.name + "/" + IntToString(c.clockRate) + count;
            && Clean(text) && text != ""
            && SplitSlash(text) == [c.name, IntToString(c.clockRate)] +
                                   (if c.channels > 1 then [IntToString(c.channels)] else [])
  {
    hide IntToString, Pieces, HasField;
    var (name, rate, ch) := (c.name, IntToString(c.clockRate), IntToString(c.channels));
    DigitsClean(c.clockRate);
    DigitsClean(c.channels);
    PiecesOfOne(name, IsSlash);
    PiecesOfOne(rate, IsSlash);
    PiecesOfOne(ch, IsSlash);
    PiecesOfJoin(name, '/', rate, IsSlash);
    if c.channels > 1 {
      assert name + "/" + rate + ("/" + ch) == (name + ['/'] + rate) + ['/'] + ch;
      PiecesOfJoin(name + ['/'] + rate, '/', ch, IsSlash);
    } else {
      assert name + "/" + rate + "" == name + ['/'] + rate;
    }
  }

  /** The rtpmap line of a codec reads back as the codec, with absent channels meaning one. */
  lemma RtpmapReadsBack(c: Codec)
    requires CodecOk(c)
    ensures ParseRtpmap(RtpmapText(c)) == [Normal(c).(fmtp := "")]
  {
    hide IntToString, ParseInt, SplitFields, SplitSlash, HasField;
    var pt := IntToString(c.payloadType);
    var text := c.name + "/" + IntToString(c.clockRate) + (if c.channels > 1 then "/" + IntToString(c.channels)
                                                           else "");
    assert RtpmapText(c) == pt + [' '] + text;
    SlashParts(c);
    DigitsClean(c.payloadType);
    FieldsOfJoin(pt, ' ', text);
    FieldsOfToken(pt);
    FieldsOfToken(text);
    ParsePrinted(c.payloadType);
    ParsePrinted(c.clockRate);
    if c.channels > 1 {
      ParsePrinted(c.channels);
    }
  }

  lemma FmtpReadsBack(c: Codec, codecs: seq<Codec>)
    requires CodecOk(c) && c.fmtp != ""
    ensures ParseFmtp(IntToString(c.payloadType) + " " + c.fmtp, codecs) == SetFmtp(codecs, c.payloadType, c.fmtp)
  {
    hide IntToString, ParseInt, SplitFields, SetFmtp;
    var pt := IntToString(c.payloadType);
    var text := pt + " " + c.fmtp;
    DigitsClean(c.payloadType);
    FieldsOfJoin(pt, ' ', c.fmtp);
    FieldsOfToken(pt);
    HasFieldSplits(c.fmtp);
    assert SplitFields(text)[0] == pt;
    assert text[|pt| + 1..] == c.fmtp;
    ParsePrinted(c.payloadType);
  }

  lemma {:induction false} SetFmtpLast(codecs: seq<Codec>, c: Codec, fmtp: string)
    requires forall j :: 0 <= j < |codecs| ==> codecs[j].payloadType != c.payloadType
    ensures SetFmtp(codecs + [c], c.payloadType, fmtp) == codecs + [c.(fmtp := fmtp)]
  {
    if codecs == [] {
      assert codecs + [c] == [c];
    } else {
      assert (codecs + [c])[1..] == codecs[1..] + [c];
      SetFmtpLast(codecs[1..], c, fmtp);
    }
  }

  lemma CodecAttributes()
    ensures AttributeOf("rtpmap") == Rtpmap && AttributeOf("fmtp") == Fmtp
  {}

  lemma IceAttributes()
    ensures AttributeOf("ice-ufrag") == IceUfrag && AttributeOf("ice-pwd") == IcePwd
  {}

  lemma DtlsAttributes()
    ensures AttributeOf("fingerprint") == Fingerprint && AttributeOf("setup") == Setup
  {}

  lemma OtherAttributes()
    ensures AttributeOf("crypto") == Crypto && AttributeOf("rtcp-mux") == RtcpMux
  {}

  lemma DirectionAttribute(d: string)
    requires IsDirection(d)
    ensures AttributeOf(d) == Direction && ':' !in d && Without(d, IsNewline)
  {}

  /** The lines of one codec append it to the list. */
  lemma CodecLinesParse(st: Parsing, c: Codec)
    requires CodecOk(c)
    requires c.fmtp != "" ==> forall j :: 0 <= j < |st.info.codecs| ==> st.info.codecs[j].payloadType != c.payloadType
    ensures ParseLines(st, CodecLines(c)) == st.(info := st.info.(codecs := st.info.codecs + [Normal(c)]))
  {
    hide ParseLine, ParseLines, ParseRtpmap, ParseFmtp, RtpmapText, AttributeOf, IntToString, CodecOk, SetFmtp;
    CodecAttributes();
    var first := "a=rtpmap:" + RtpmapText(c);
    var plain := Normal(c).(fmtp := "");
    assert first == "a=" + "rtpmap" + ":" + RtpmapText(c);
    AttributeLine(st, "rtpmap", RtpmapText(c));
    RtpmapReadsBack(c);
    ParseOneLine(st, first);
    if c.fmtp != "" {
      var text := IntToString(c.payloadType) + " " + c.fmtp;
      var second := "a=fmtp:" + IntToString(c.payloadType) + " " + c.fmtp;
      assert second == "a=" + "fmtp" + ":" + text;
      var st1 := st.(info := st.info.(codecs := st.info.codecs + [plain]));
      AttributeLine(st1, "fmtp", text);
      FmtpReadsBack(c, st1.info.codecs);
      SetFmtpLast(st.info.codecs, plain, c.fmtp);
      ParseOneLine(st1, second);
      ParseLinesConcat(st, [first], [second]);
    } else {
      assert CodecLines(c) == [first];
    }
  }

  lemma {:induction false} AllCodecLinesParse(st: Parsing, codecs: seq<Codec>)
    requires CodecsOk(codecs) && st.info.codecs == []
    ensures ParseLines(st, AllCodecLines(codecs)) == st.(info := st.info.(codecs := Normals(codecs)))
    decreases |codecs|
  {
    hide CodecLines, ParseLine, CodecOk;
    if codecs != [] {
      var (cs, c) := (codecs[..|codecs| - 1], codecs[|codecs| - 1]);
      AllCodecLinesParse(st, cs);
      var st1 := st.(info := st.info.(codecs := Normals(cs)));
      CodecLinesParse(st1, c);
      ParseLinesConcat(st, AllCodecLines(cs), CodecLines(c));
      assert Normals(codecs) == Normals(cs) + [Normal(c)];
    }
  }

  lemma OptionalLine(st: Parsing, shown: bool, name: string, value: string)
    requires ':' !in name
    ensures ParseLines(st, Optional(shown, name, value)) ==
            if shown && value != "" then st.(info := ApplyAttribute(name, value, st.info)) else st
  {
    hide ParseLine, ApplyAttribute;
    if shown && value != "" {
      AttributeLine(st, name, value);
      ParseOneLine(st, "a=" + name + ":" + value);
    }
  }

  lemma CryptoReadsBack(p: Info, q: Info)
    requires Clean(p.cryptoSuite) && Clean(p.cryptoKey) && (p.cryptoSuite == "" ==> p.cryptoKey == "")
    requires q.cryptoSuite == "" && q.cryptoKey == ""
    ensures ParseCrypto("1 " + p.cryptoSuite + " inline:" + p.cryptoKey, q) ==
            q.(hasSRTP := true, cryptoSuite := p.cryptoSuite, cryptoKey := p.cryptoKey)
  {
    hide SplitFields;
    var last := "inline:" + p.cryptoKey;
    assert "1 " + p.cryptoSuite + " inline:" + p.cryptoKey == "1" + " " + p.cryptoSuite + " " + last;
    ThreeFields("1", p.cryptoSuite, last);
    FieldsOfToken("1");
    FieldsOfToken(p.cryptoSuite);
    FieldsOfToken(last);
    assert last[..7] == "inline:" && last[7..] == p.cryptoKey;
  }

  lemma IceLinesParse(st: Parsing, p: Info, ice: bool)
    requires st.info.iceUfrag == "" && st.info.icePwd == "" && !st.info.hasICE
    ensures ParseLines(st, Optional(ice, "ice-ufrag", p.iceUfrag) + Optional(ice, "ice-pwd", p.icePwd)) ==
            st.(info := st.info.(hasICE := ice && (p.iceUfrag != "" || p.icePwd != ""),
                                 iceUfrag := if ice then p.iceUfrag else "", icePwd := if ice then p.icePwd else ""))
  {
    hide ParseLines, Optional, AttributeOf;
    IceAttributes();
    var l1, l2 := Optional(ice, "ice-ufrag", p.iceUfrag), Optional(ice, "ice-pwd", p.icePwd);
    ParseLinesConcat(st, l1, l2);
    OptionalLine(st, ice, "ice-ufrag", p.iceUfrag);
    OptionalLine(ParseLines(st, l1), ice, "ice-pwd", p.icePwd);
  }

  lemma DtlsLinesParse(st: Parsing, p: Info, dtls: bool)
    requires st.info.fingerprint == "" && st.info.setup == "" && !st.info.hasDTLS
    ensures ParseLines(st, Optional(dtls, "fingerprint", p.fingerprint) + Optional(dtls, "setup", p.setup)) ==
            st.(info := st.info.(hasDTLS := dtls && p.fingerprint != "",
                                 fingerprint := if dtls then p.fingerprint else "", setup := if dtls then p.setup
                                   else ""))
  {
    hide ParseLines, Optional, AttributeOf;
    DtlsAttributes();
    var l1, l2 := Optional(dtls, "fingerprint", p.fingerprint), Optional(dtls, "setup", p.setup);
    ParseLinesConcat(st, l1, l2);
    OptionalLine(st, dtls, "fingerprint", p.fingerprint);
    OptionalLine(ParseLines(st, l1), dtls, "setup", p.setup);
  }

  /** The ICE and DTLS lines. */
  lemma MiddleLinesParse(st: Parsing, p: Info, flags: seq<string>)
    requires WellFormed(p) && st.info.iceUfrag == "" && st.info.icePwd == "" && !st.info.hasICE
    requires st.info.fingerprint == "" && st.info.setup == "" && !st.info.hasDTLS
    ensures var (ice, dtls) := (PrintsICE(p, flags), PrintsDTLS(p, flags));
            ParseLines(st, Optional(ice, "ice-ufrag", p.iceUfrag) + Optional(ice, "ice-pwd", p.icePwd) +
                           Optional(dtls, "fingerprint", p.fingerprint) + Optional(dtls, "setup", p.setup)) ==
            st.(info := st.info.(
                  hasICE := ice && (p.iceUfrag != "" || p.icePwd != ""),
                  iceUfrag := if ice then p.iceUfrag else "", icePwd := if ice then p.icePwd else "",
                  hasDTLS := dtls && p.fingerprint != "",
                  fingerprint := if dtls then p.fingerprint else "", setup := if dtls then p.setup else ""))
  {
    hide ParseLines, Optional, PrintsICE, PrintsDTLS, WellFormed;
    var (ice, dtls) := (PrintsICE(p, flags), PrintsDTLS(p, flags));
    var l1 := Optional(ice, "ice-ufrag", p.iceUfrag) + Optional(ice, "ice-pwd", p.icePwd);
    var (l3, l4) := (Optional(dtls, "fingerprint", p.fingerprint), Optional(dtls, "setup", p.setup));
    assert l1 + l3 + l4 == l1 + (l3 + l4);
    ParseLinesConcat(st, l1, l3 + l4);
    IceLinesParse(st, p, ice);
    DtlsLinesParse(ParseLines(st, l1), p, dtls);
  }

  /** The direction and mux lines. */
  lemma FrontLinesParse(st: Parsing, p: Info, flags: seq<string>)
    requires IsDirection(p.direction) && !st.info.rtcpMux
    ensures ParseLines(st, ["a=" + p.direction] + (if PrintsMux(p, flags) then ["a=rtcp-mux"] else [])) ==
            st.(info := st.info.(direction := p.direction, rtcpMux := PrintsMux(p, flags)))
  {
    hide ParseLine, ParseLines, AttributeOf, PrintsMux, IsDirection;
    var line := "a=" + p.direction;
    DirectionAttribute(p.direction);
    PlainAttributeLine(st, p.direction);
    ParseOneLine(st, line);
    var st1 := ParseLines(st, [line]);
    if PrintsMux(p, flags) {
      OtherAttributes();
      assert "a=rtcp-mux" == "a=" + "rtcp-mux";
      PlainAttributeLine(st1, "rtcp-mux");
      ParseOneLine(st1, "a=rtcp-mux");
      ParseLinesConcat(st, [line], ["a=rtcp-mux"]);
    } else {
      assert [line] + [] == [line];
    }
  }

  lemma CryptoLineParses(st: Parsing, p: Info, flags: seq<string>)
    requires WellFormed(p) && st.info.cryptoSuite == "" && st.info.cryptoKey == "" && !st.info.hasSRTP
    ensures var crypto := PrintsCrypto(p, flags);
            ParseLines(st, if crypto then ["a=crypto:1 " + p.cryptoSuite + " inline:" + p.cryptoKey] else []) ==
            st.(info := st.info.(hasSRTP := crypto, cryptoSuite := if crypto then p.cryptoSuite else "",
                                 cryptoKey := if crypto then p.cryptoKey else ""))
  {
    hide ParseLine, AttributeOf, PrintsCrypto, ParseCrypto, CodecsOk, IsDirection;
    if PrintsCrypto(p, flags) {
      var text := "1 " + p.cryptoSuite + " inline:" + p.cryptoKey;
      var line := "a=crypto:1 " + p.cryptoSuite + " inline:" + p.cryptoKey;
      assert line == "a=" + "crypto" + ":" + text;
      OtherAttributes();
      AttributeLine(st, "crypto", text);
      CryptoReadsBack(p, st.info);
      ParseOneLine(st, line);
    }
  }

  lemma HeaderLinesParse(p: Info, ip: string, port: int, flags: seq<string>)
    requires WellFormed(p) && Clean(ip) && Without(ip, IsSlash) && 0 <= port < TWO63
    ensures ParseLines(Parsing(INITIAL, []), HeaderLines(p, ip, port, flags)) ==
            (var info := INITIAL.(connectionIP := ConnectionOf(p, ip, flags));
             if p.codecs == [] then Parsing(info, [])
             else Parsing(info.(mediaType := p.mediaType, mediaPort := port, protocol := DetermineProtocol(p, flags)),
                          TypesOf(p.codecs)))
  {
    hide ParseLines, MediaLine, DetermineProtocol, CodecsOk, IsDirection, ParseConnection, ParseMedia, ParseAttribute;
    var st := Parsing(INITIAL, []);
    var conn := "c=IN IP4 " + ConnectionOf(p, ip, flags);
    var media := MediaLine(p, port, flags);
    var origin := "o=karl 1 1 IN IP4 " + ip;
    assert HeaderLines(p, ip, port, flags) ==
           (["v=0"] + [origin] + ["s=Karl Media Server"]) + [conn] + ["t=0 0"] + [media];
    ParseLinesConcat(st, ["v=0"], [origin]);
    ParseLinesConcat(st, ["v=0"] + [origin], ["s=Karl Media Server"]);
    ParseOneLine(st, "v=0");
    ParseOneLine(st, origin);
    ParseOneLine(st, "s=Karl Media Server");
    assert ParseLine(st, "v=0") == st && ParseLine(st, origin) == st && ParseLine(st, "s=Karl Media Server") == st;
    var start := ["v=0"] + [origin] + ["s=Karl Media Server"];
    ParseLinesConcat(st, start, [conn]);
    ParseOneLine(st, conn);
    ConnectionLine(st, ConnectionOf(p, ip, flags));
    var st1 := ParseLine(st, conn);
    ParseLinesConcat(st, start + [conn], ["t=0 0"]);
    ParseOneLine(st1, "t=0 0");
    assert ParseLine(st1, "t=0 0") == st1;
    ParseLinesConcat(st, start + [conn] + ["t=0 0"], [media]);
    ParseOneLine(st1, media);
    MediaLineParses(st1, p, port, flags);
  }

  lemma TailLinesParse(st: Parsing, p: Info, flags: seq<string>)
    requires WellFormed(p)
    requires st.info == INITIAL.(connectionIP := st.info.connectionIP, mediaType := st.info.mediaType,
                                 mediaPort := st.info.mediaPort, protocol := st.info.protocol,
                                 codecs := st.info.codecs)
    ensures var (ice, dtls, crypto) := (PrintsICE(p, flags), PrintsDTLS(p, flags), PrintsCrypto(p, flags));
            ParseLines(st, TailLines(p, flags)) ==
            st.(info := st.info.(
                  direction := p.direction, rtcpMux := PrintsMux(p, flags),
                  hasICE := ice && (p.iceUfrag != "" || p.icePwd != ""),
                  iceUfrag := if ice then p.iceUfrag else "", icePwd := if ice then p.icePwd else "",
                  hasDTLS := dtls && p.fingerprint != "",
                  fingerprint := if dtls then p.fingerprint else "", setup := if dtls then p.setup else "",
                  hasSRTP := crypto, cryptoSuite := if crypto then p.cryptoSuite else "",
                  cryptoKey := if crypto then p.cryptoKey else ""))
  {
    hide ParseLines, Optional, PrintsMux, PrintsICE, PrintsDTLS, PrintsCrypto, CodecsOk, IsDirection;
    var (ice, dtls, crypto) := (PrintsICE(p, flags), PrintsDTLS(p, flags), PrintsCrypto(p, flags));
    var front := ["a=" + p.direction] + (if PrintsMux(p, flags) then ["a=rtcp-mux"] else []);
    var middle := Optional(ice, "ice-ufrag", p.iceUfrag) + Optional(ice, "ice-pwd", p.icePwd) +
                  Optional(dtls, "fingerprint", p.fingerprint) + Optional(dtls, "setup", p.setup);
    var last := if crypto then ["a=crypto:1 " + p.cryptoSuite + " inline:" + p.cryptoKey] else [];
    assert TailLines(p, flags) == front + middle + last;
    ParseLinesConcat(st, front + middle, last);
    ParseLinesConcat(st, front, middle);
    FrontLinesParse(st, p, flags);
    var st1 := ParseLines(st, front);
    MiddleLinesParse(st1, p, flags);
    CryptoLineParses(ParseLines(st1, middle), p, flags);
  }

  // ---- All lines together

  lemma {:induction false} FormatListClean(codecs: seq<Codec>)
    ensures Without(FormatList(codecs), IsNewline)
  {
    hide IntToString;
    if codecs != [] {
      FormatListClean(codecs[..|codecs| - 1]);
      DigitsClean(codecs[|codecs| - 1].payloadType);
    }
  }

  ghost predicate AreLines(lines: seq<string>) {
    forall i :: 0 <= i < |lines| ==> IsLine(lines[i])
  }

  lemma HeaderAreLines(p: Info, ip: string, port: int, flags: seq<string>)
    requires WellFormed(p) && Clean(ip)
    ensures AreLines(HeaderLines(p, ip, port, flags))
  {
    hide CodecsOk, IsDirection, DetermineProtocol, FormatList, IntToString;
    ProtocolIsToken(p, flags);
    FormatListClean(p.codecs);
    DigitsClean(port);
  }

  lemma CodecLinesAreLines(c: Codec)
    requires CodecOk(c)
    ensures AreLines(CodecLines(c))
  {
    hide IntToString, HasField;
    DigitsClean(c.payloadType);
    DigitsClean(c.clockRate);
    DigitsClean(c.channels);
  }

  lemma {:induction false} AllCodecLinesAreLines(codecs: seq<Codec>)
    requires CodecsOk(codecs)
    ensures AreLines(AllCodecLines(codecs))
  {
    hide CodecLines, CodecOk, IsLine;
    if codecs != [] {
      AllCodecLinesAreLines(codecs[..|codecs| - 1]);
      CodecLinesAreLines(codecs[|codecs| - 1]);
    }
  }

  lemma OptionalAreLines(shown: bool, name: string, value: string)
    requires Without(name, IsNewline) && Without(value, IsNewline)
    ensures AreLines(Optional(shown, name, value))
  {}

  lemma CryptoIsLine(p: Info)
    requires Clean(p.cryptoSuite) && Clean(p.cryptoKey)
    ensures IsLine("a=crypto:1 " + p.cryptoSuite + " inline:" + p.cryptoKey)
  {}

  lemma DirectionIsLine(p: Info)
    requires IsDirection(p.direction)
    ensures IsLine("a=" + p.direction) && IsLine("a=rtcp-mux")
  {
    DirectionAttribute(p.direction);
  }

  lemma TailAreLines(p: Info, flags: seq<string>)
    requires WellFormed(p)
    ensures AreLines(TailLines(p, flags))
  {
    hide CodecsOk, PrintsMux, PrintsICE, PrintsDTLS, PrintsCrypto, IsDirection, Optional, IsLine;
    DirectionIsLine(p);
    CryptoIsLine(p);
    OptionalAreLines(PrintsICE(p, flags), "ice-ufrag", p.iceUfrag);
    OptionalAreLines(PrintsICE(p, flags), "ice-pwd", p.icePwd);
    OptionalAreLines(PrintsDTLS(p, flags), "fingerprint", p.fingerprint);
    OptionalAreLines(PrintsDTLS(p, flags), "setup", p.setup);
  }

  lemma AllAreLines(p: Info, ip: string, port: int, flags: seq<string>)
    requires WellFormed(p) && Clean(ip)
    ensures AreLines(Lines(p, ip, port, flags))
  {
    hide HeaderLines, AllCodecLines, TailLines, IsLine;
    HeaderAreLines(p, ip, port, flags);
    AllCodecLinesAreLines(p.codecs);
    TailAreLines(p, flags);
  }

  /** Every printed payload type has an rtpmap line, so nothing is filled in. */
  lemma {:induction false} NothingToFill(codecs: seq<Codec>, n: nat)
    requires n <= |codecs| && forall i :: 0 <= i < |codecs| ==> 0 <= codecs[i].payloadType < 256
    ensures StaticFill(Normals(codecs), TypesOf(codecs)[..n]) == []
  {
    if n > 0 {
      NothingToFill(codecs, n - 1);
      assert TypesOf(codecs)[..n][..n - 1] == TypesOf(codecs)[..n - 1];
      assert Normals(codecs)[n - 1].payloadType == TypesOf(codecs)[..n][n - 1] % 256;
    }
  }

  /** Printing then parsing: every field of the result, for every well-formed record. */
  lemma ParseOfBuild(p: Info, ip: string, port: int, flags: seq<string>)
    requires WellFormed(p) && Clean(ip) && Without(ip, IsSlash) && 0 <= port < TWO63
    ensures Parse(Build(p, ip, port, flags)) == Reparsed(p, ip, port, flags)
  {
    hide ParseLines, HeaderLines, AllCodecLines, TailLines, SplitLines, Render, StaticFill, DetermineProtocol,
      ConnectionOf;
    hide PrintsMux, PrintsICE, PrintsDTLS, PrintsCrypto;
    var st0 := Parsing(INITIAL, []);
    AllAreLines(p, ip, port, flags);
    SplitRender(Lines(p, ip, port, flags));
    var (header, codecs, tail) := (HeaderLines(p, ip, port, flags), AllCodecLines(p.codecs), TailLines(p, flags));
    ParseLinesConcat(st0, header + codecs, tail);
    ParseLinesConcat(st0, header, codecs);
    HeaderLinesParse(p, ip, port, flags);
    var st1 := ParseLines(st0, header);
    AllCodecLinesParse(st1, p.codecs);
    var st2 := ParseLines(st1, codecs);
    TailLinesParse(st2, p, flags);
    NothingToFill(p.codecs, |p.codecs|);
    assert TypesOf(p.codecs)[..|p.codecs|] == TypesOf(p.codecs);
    assert Normals(p.codecs) + [] == Normals(p.codecs);
  }

  // ---- The second pass

  /** Some flag fixes the protocol. */
  predicate ProtocolFixed(flags: seq<string>) {
    exists i :: 0 <= i < |flags| && ProtocolFlag(flags[i])
  }

  /** The DTLS block does not rest on a setup line alone. */
  predicate SetupBacked(p: Info, flags: seq<string>) {
    !(PrintsDTLS(p, flags) && p.fingerprint == "" && p.setup != "")
  }

  /** The protocol printed without formats is the one the parser then falls back to. */
  predicate ProtocolSurvives(p: Info, flags: seq<string>) {
    || ProtocolFixed(flags)
    || (if p.hasDTLS then PrintsDTLS(p, flags) && p.fingerprint != ""
        else if p.hasSRTP then PrintsCrypto(p, flags)
        else p.protocol == "RTP/AVP")
  }

  /** What a caller can check before printing: a setup line has its fingerprint, and a media line
      without formats, which the parser ignores, says nothing but the defaults. */
  predicate Stable(p: Info, flags: seq<string>) {
    && SetupBacked(p, flags)
    && (p.codecs == [] ==> p.mediaType == "audio" && ProtocolSurvives(p, flags))
  }

  lemma {:induction false} ProtocolByFlags(p: Info, q: Info, flags: seq<string>)
    ensures ProtocolFixed(flags) ==> DetermineProtocol(p, flags) == DetermineProtocol(q, flags)
    ensures !ProtocolFixed(flags) ==> DetermineProtocol(p, flags) == DetermineProtocol(p, [])
    decreases flags
  {
    if flags != [] {
      ProtocolByFlags(p, q, flags[1..]);
      assert flags == [flags[0]] + flags[1..];
      if ProtocolFixed(flags) && !ProtocolFlag(flags[0]) {
        var i :| 0 <= i < |flags| && ProtocolFlag(flags[i]);
        assert flags[1..][i - 1] == flags[i];
      }
      if ProtocolFixed(flags[1..]) {
        var i :| 0 <= i < |flags[1..]| && ProtocolFlag(flags[1..][i]);
        assert flags[i + 1] == flags[1..][i];
      }
    }
  }

  lemma {:induction false} NormalsPrintAlike(codecs: seq<Codec>)
    ensures AllCodecLines(Normals(codecs)) == AllCodecLines(codecs)
    ensures FormatList(Normals(codecs)) == FormatList(codecs)
  {
    hide IntToString;
    if codecs != [] {
      var n := |codecs| - 1;
      NormalsPrintAlike(codecs[..n]);
      assert Normals(codecs)[..n] == Normals(codecs[..n]);
    }
  }

  /** With codecs the printed protocol is read back and printed again. */
  lemma ProtocolAgain(p: Info, ip: string, port: int, flags: seq<string>)
    ensures var q := Reparsed(p, ip, port, flags);
            DetermineProtocol(q, flags) == DetermineProtocol(p, flags) <==>
            p.codecs != [] || ProtocolSurvives(p, flags)
  {
    hide ConnectionOf;
    ProtocolByFlags(p, Reparsed(p, ip, port, flags), flags);
    ProtocolByFlags(Reparsed(p, ip, port, flags), p, flags);
  }

  lemma HeaderAgain(p: Info, ip: string, port: int, flags: seq<string>)
    requires WellFormed(p) && port >= 0
    ensures var q := Reparsed(p, ip, port, flags);
            HeaderLines(q, ip, port, flags) == HeaderLines(p, ip, port, flags) <==>
            (p.codecs == [] ==> p.mediaType == "audio" && ProtocolSurvives(p, flags))
  {
    hide FormatList, IntToString, CodecsOk, IsDirection, DetermineProtocol, ProtocolSurvives;
    var q := Reparsed(p, ip, port, flags);
    assert ConnectionOf(q, ip, flags) == ConnectionOf(p, ip, flags);
    NormalsPrintAlike(p.codecs);
    ProtocolAgain(p, ip, port, flags);
    ProtocolIsToken(p, flags);
    ProtocolIsToken(q, flags);
    TypesInRange(p.codecs);
    if MediaLine(q, port, flags) == MediaLine(p, port, flags) {
      SameFields(q, p, port, flags);
    }
    assert HeaderLines(q, ip, port, flags)[5] == MediaLine(q, port, flags);
    assert HeaderLines(p, ip, port, flags)[5] == MediaLine(p, port, flags);
  }

  /** Equal media lines name equal media types and protocols. */
  lemma SameFields(q: Info, p: Info, port: int, flags: seq<string>)
    requires Token(p.mediaType) && Token(q.mediaType) && port >= 0
    requires Token(DetermineProtocol(p, flags)) && Token(DetermineProtocol(q, flags))
    requires (forall i :: 0 <= i < |p.codecs| ==> p.codecs[i].payloadType >= 0)
    requires (forall i :: 0 <= i < |q.codecs| ==> q.codecs[i].payloadType >= 0)
    requires MediaLine(q, port, flags) == MediaLine(p, port, flags)
    ensures q.mediaType == p.mediaType && DetermineProtocol(q, flags) == DetermineProtocol(p, flags)
  {
    hide FormatList, IntToString, DetermineProtocol, MediaLine;
    MediaFields(p, port, flags);
    MediaFields(q, port, flags);
    var fs := SplitFields(MediaLine(p, port, flags)[2..]);
    assert fs[0] == p.mediaType && fs[2] == DetermineProtocol(p, flags);
    assert fs[0] == q.mediaType && fs[2] == DetermineProtocol(q, flags);
  }

  lemma TypesInRange(codecs: seq<Codec>)
    requires CodecsOk(codecs)
    ensures forall i :: 0 <= i < |codecs| ==> codecs[i].payloadType >= 0
    ensures forall i :: 0 <= i < |codecs| ==> Normals(codecs)[i].payloadType >= 0
  {}

  lemma MediaFields(p: Info, port: int, flags: seq<string>)
    requires Token(p.mediaType) && port >= 0 && Token(DetermineProtocol(p, flags))
    requires forall i :: 0 <= i < |p.codecs| ==> p.codecs[i].payloadType >= 0
    ensures |MediaLine(p, port, flags)| >= 2
    ensures SplitFields(MediaLine(p, port, flags)[2..]) ==
            [p.mediaType, IntToString(port), DetermineProtocol(p, flags)] + Formats(p.codecs)
  {
    hide SplitFields, IntToString, DetermineProtocol, FormatList;
    var proto := DetermineProtocol(p, flags);
    DigitsClean(port);
    var head := p.mediaType + " " + IntToString(port) + " " + proto;
    assert MediaLine(p, port, flags)[2..] == head + FormatList(p.codecs);
    FieldsOfFormats(head, p.codecs);
    ThreeFields(p.mediaType, IntToString(port), proto);
    FieldsOfToken(p.mediaType);
    FieldsOfToken(IntToString(port));
    FieldsOfToken(proto);
  }

  lemma TailAgain(p: Info, ip: string, port: int, flags: seq<string>)
    requires WellFormed(p)
    ensures var q := Reparsed(p, ip, port, flags);
            if SetupBacked(p, flags) then TailLines(q, flags) == TailLines(p, flags)
            else |TailLines(q, flags)| == |TailLines(p, flags)| - 1
  {
    hide CodecsOk, IsDirection, DetermineProtocol, ConnectionOf;
  }

  /** The second pass, on records: identical output exactly when the record is stable. */
  lemma BuildAgain(p: Info, ip: string, port: int, flags: seq<string>)
    requires WellFormed(p) && Clean(ip) && Without(ip, IsSlash) && 0 <= port < TWO63
    ensures Build(Parse(Build(p, ip, port, flags)), ip, port, flags) == Build(p, ip, port, flags) <==> Stable(p, flags)
  {
    hide HeaderLines, AllCodecLines, TailLines, Render, Parse, Reparsed, WellFormed, ProtocolSurvives, SetupBacked;
    ParseOfBuild(p, ip, port, flags);
    var q := Reparsed(p, ip, port, flags);
    ParsedIsWellFormed(Build(p, ip, port, flags));
    AllAreLines(p, ip, port, flags);
    AllAreLines(q, ip, port, flags);
    SplitRender(Lines(p, ip, port, flags));
    SplitRender(Lines(q, ip, port, flags));
    HeaderAgain(p, ip, port, flags);
    TailAgain(p, ip, port, flags);
    CodecsAgain(p, ip, port, flags);
    var (h, h') := (HeaderLines(p, ip, port, flags), HeaderLines(q, ip, port, flags));
    var (l, l') := (Lines(p, ip, port, flags), Lines(q, ip, port, flags));
    assert |h| == 6 == |h'| by { HeaderCount(p, ip, port, flags); HeaderCount(q, ip, port, flags); }
    assert l[..6] == h && l'[..6] == h';
    assert l == h + AllCodecLines(p.codecs) + TailLines(p, flags);
  }

  lemma HeaderCount(p: Info, ip: string, port: int, flags: seq<string>)
    ensures |HeaderLines(p, ip, port, flags)| == 6
  {}

  lemma CodecsAgain(p: Info, ip: string, port: int, flags: seq<string>)
    ensures AllCodecLines(Reparsed(p, ip, port, flags).codecs) == AllCodecLines(p.codecs)
  {
    NormalsPrintAlike(p.codecs);
  }

  // ---- For every text

  /** For every SDP text: media type, port, protocol, direction and multiplexing are recovered from the
      printed answer if any codec was found, and the codec list with its parameters is recovered
      exactly when every channel count is at least one. */
  lemma AnswerIsRecovered(sdp: string, ip: string, port: int, flags: seq<string>)
    requires Clean(ip) && Without(ip, IsSlash) && 0 <= port < TWO63
    ensures var p := Parse(sdp);
            var q := Parse(Build(p, ip, port, flags));
            && (p.codecs != [] ==>
                  q.mediaType == p.mediaType && q.mediaPort == port && q.protocol == DetermineProtocol(p, flags))
            && q.direction == p.direction && q.rtcpMux == PrintsMux(p, flags)
            && q.connectionIP == ConnectionOf(p, ip, flags)
            && (q.codecs == p.codecs <==> forall c <- p.codecs :: c.channels >= 1)
  {
    hide Parse, Build, WellFormed, DetermineProtocol, ConnectionOf, PrintsMux, PrintsICE, PrintsDTLS, PrintsCrypto;
    var p := Parse(sdp);
    ParsedIsWellFormed(sdp);
    ParseOfBuild(p, ip, port, flags);
    if Normals(p.codecs) == p.codecs {
      forall c | c in p.codecs ensures c.channels >= 1 {
        var i :| 0 <= i < |p.codecs| && p.codecs[i] == c;
        assert Normals(p.codecs)[i] == c;
      }
    } else {
      var i :| 0 <= i < |p.codecs| && Normals(p.codecs)[i] != p.codecs[i];
      assert p.codecs[i] in p.codecs;
    }
  }

  /** For every SDP text: running the answer through the same pass again reproduces it exactly when the
      parsed record is stable. */
  lemma SecondPass(sdp: string, ip: string, port: int, flags: seq<string>)
    requires Clean(ip) && Without(ip, IsSlash) && 0 <= port < TWO63
    ensures var answer := Build(Parse(sdp), ip, port, flags);
            Build(Parse(answer), ip, port, flags) == answer <==> Stable(Parse(sdp), flags)
  {
    hide Parse, Build, Stable;
    ParsedIsWellFormed(sdp);
    BuildAgain(Parse(sdp), ip, port, flags);
  }

  /** A text whose answer is not reproduced: the setup line is printed once, then lost. */
  lemma SetupLineIsLost(ip: string, port: int)
    requires Clean(ip) && Without(ip, IsSlash) && 0 <= port < TWO63
    ensures var sdp := "a=fingerprint:\r\na=setup:active\r\n";
            var answer := Build(Parse(sdp), ip, port, []);
            Build(Parse(answer), ip, port, []) != answer
  {
    hide Parse, Build;
    SetupParsed();
    SecondPass("a=fingerprint:\r\na=setup:active\r\n", ip, port, []);
  }

  lemma SetupParsed()
    ensures Parse("a=fingerprint:\r\na=setup:active\r\n") == INITIAL.(hasDTLS := true, setup := "active")
  {
    hide Render, SplitLines, ParseLines, ParseLine, AttributeOf;
    var (l1, l2) := ("a=fingerprint:", "a=setup:active");
    var sdp := "a=fingerprint:\r\na=setup:active\r\n";
    var st := Parsing(INITIAL, []);
    TwoLines(l1, l2);
    assert sdp == l1 + "\r\n" + l2 + "\r\n";
    SplitRender([l1, l2]);
    ParseLinesConcat(st, [l1], [l2]);
    ParseOneLine(st, l1);
    assert l1 == "a=" + "fingerprint" + ":" + "";
    AttributeLine(st, "fingerprint", "");
    var st1 := ParseLine(st, l1);
    ParseOneLine(st1, l2);
    assert l2 == "a=" + "setup" + ":" + "active";
    AttributeLine(st1, "setup", "active");
    DtlsAttributes();
    assert [l1] + [l2] == [l1, l2];
  }

  lemma TwoLines(a: string, b: string)
    ensures Render([a, b]) == a + "\r\n" + b + "\r\n"
  {
    assert [a, b][1..] == [b] && [b][1..] == [];
    assert Render([b]) == b + "\r\n" + Render([]);
  }

  lemma OneLine(l: string)
    requires IsLine(l)
    ensures SplitLines(l + "\r\n") == [l]
  {
    hide SplitLines, IsLine;
    assert [l][1..] == [] && Render([l]) == l + "\r\n" + Render([]);
    assert Render([l]) == l + "\r\n";
    SplitRender([l]);
  }

  lemma ZeroRtpmap()
    ensures |ParseRtpmap("96 x/8000/0")| == 1 && ParseRtpmap("96 x/8000/0")[0].channels == 0
  {
    hide Pieces, SplitFields;
    assert "96 x/8000/0" == "96" + [' '] + "x/8000/0";
    FieldsOfJoin("96", ' ', "x/8000/0");
    FieldsOfToken("96");
    FieldsOfToken("x/8000/0");
    assert "x/8000/0" == ("x" + ['/'] + "8000") + ['/'] + "0";
    PiecesOfJoin("x" + ['/'] + "8000", '/', "0", IsSlash);
    PiecesOfJoin("x", '/', "8000", IsSlash);
    PiecesOfOne("x", IsSlash);
    PiecesOfOne("8000", IsSlash);
    PiecesOfOne("0", IsSlash);
    assert SplitSlash("x/8000/0") == ["x", "8000", "0"];
    assert ParseInt("0") == 0;
  }

  lemma ZeroParsed()
    ensures var p := Parse("a=rtpmap:96 x/8000/0\r\n"); |p.codecs| == 1 && p.codecs[0].channels == 0
  {
    hide SplitLines, ParseLine, ParseRtpmap, AttributeOf;
    var (value, st) := ("96 x/8000/0", Parsing(INITIAL, []));
    var line := "a=" + "rtpmap" + ":" + value;
    assert "a=rtpmap:96 x/8000/0\r\n" == line + "\r\n";
    assert IsLine(line);
    OneLine(line);
    ParseOneLine(st, line);
    AttributeLine(st, "rtpmap", value);
    CodecAttributes();
    ZeroRtpmap();
  }

  /** A codec said to have no channels is not recovered: it is printed without a count, which reads as one. */
  lemma ZeroChannelsAreLost(ip: string, port: int, flags: seq<string>)
    requires Clean(ip) && Without(ip, IsSlash) && 0 <= port < TWO63
    ensures var p := Parse("a=rtpmap:96 x/8000/0\r\n");
            |p.codecs| == 1 && p.codecs[0].channels == 0 && Parse(Build(p, ip, port, flags)).codecs != p.codecs
  {
    hide Parse, Build;
    var sdp := "a=rtpmap:96 x/8000/0\r\n";
    ZeroParsed();
    AnswerIsRecovered(sdp, ip, port, flags);
    assert Parse(sdp).codecs[0] in Parse(sdp).codecs;
  }

  lemma VideoLine(st: Parsing)
    ensures ParseMedia("video 5 RTP/AVP 99", st).info ==
            st.info.(mediaType := "video", mediaPort := 5, protocol := "RTP/AVP")
    ensures ParseMedia("video 5 RTP/AVP 99", st).payloadTypes == st.payloadTypes + [99]
  {
    hide Pieces, SplitFields;
    assert "video 5 RTP/AVP 99" == "video 5 RTP/AVP" + [' '] + "99";
    FieldsOfJoin("video 5 RTP/AVP", ' ', "99");
    ThreeFields("video", "5", "RTP/AVP");
    assert "video 5 RTP/AVP" == "video" + " " + "5" + " " + "RTP/AVP";
    FieldsOfToken("video");
    FieldsOfToken("5");
    FieldsOfToken("RTP/AVP");
    FieldsOfToken("99");
    var parts := ["video", "5", "RTP/AVP", "99"];
    assert SplitFields("video 5 RTP/AVP 99") == parts;
    assert parts[3..] == ["99"] && ["99"][..0] == [];
    assert ParseInt("5") == 5;
    assert "99"[1..] == "9" && "9"[1..] == "";
    assert ParseFrom(9, "9") == 99 && ParseInt("99") == 99;
  }

  /** A video line whose one format nobody describes is not recovered: it is printed without formats, and a line
      without formats is skipped. */
  lemma BareVideoIsLost(ip: string, port: int)
    requires Clean(ip) && Without(ip, IsSlash) && 0 <= port < TWO63
    ensures var p := Parse("m=video 5 RTP/AVP 99\r\n");
            var answer := Build(p, ip, port, []);
            && p.mediaType == "video" && p.codecs == []
            && Parse(answer).mediaType == "audio" && Build(Parse(answer), ip, port, []) != answer
  {
    hide Parse, Build, WellFormed;
    var sdp := "m=video 5 RTP/AVP 99\r\n";
    VideoParsed();
    ParsedIsWellFormed(sdp);
    ParseOfBuild(Parse(sdp), ip, port, []);
    SecondPass(sdp, ip, port, []);
  }

  lemma VideoParsed()
    ensures Parse("m=video 5 RTP/AVP 99\r\n") == INITIAL.(mediaType := "video", mediaPort := 5)
  {
    var (line, st) := ("m=video 5 RTP/AVP 99", Parsing(INITIAL, []));
    assert "m=video 5 RTP/AVP 99\r\n" == line + "\r\n";
    OneLine(line);
    hide SplitLines, ParseMedia;
    ParseOneLine(st, line);
    assert line[0] == 'm' && line[1] == '=' && line[2..] == "video 5 RTP/AVP 99";
    VideoLine(st);
    assert [] + [99] == [99] && [99][..0] == [];
    assert StaticFill([], [99]) == [];
  }
}
