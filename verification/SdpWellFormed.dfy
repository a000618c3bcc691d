/** What holds of every parsed SDP, whatever text it was parsed from. */
module SdpWellFormed {
  import opened SdpText
  import opened SdpNumbers
  import opened Sdp

  ghost predicate Clean(s: string) {
    Without(s, IsBlank) && Without(s, IsNewline)
  }

  ghost predicate Token(s: string) {
    s != "" && Clean(s)
  }

  ghost predicate CodecOk(c: Codec) {
    && 0 <= c.payloadType < 256 && 0 <= c.clockRate < 0x1_0000_0000 && c.channels < TWO63
    && Clean(c.name) && Without(c.name, IsSlash)
    && Without(c.fmtp, IsNewline) && (c.fmtp != "" ==> HasField(c.fmtp))
  }

  /** Only the first codec of a payload type can carry format parameters. */
  ghost predicate FirstOnly(codecs: seq<Codec>) {
    forall i, j :: 0 <= j < i < |codecs| && codecs[i].fmtp != "" ==> codecs[j].payloadType != codecs[i].payloadType
  }

  ghost predicate CodecsOk(codecs: seq<Codec>) {
    (forall i :: 0 <= i < |codecs| ==> CodecOk(codecs[i])) && FirstOnly(codecs)
  }

  ghost predicate WellFormed(p: Info) {
    && Token(p.mediaType) && Token(p.protocol)
    && Clean(p.connectionIP) && Without(p.connectionIP, IsSlash)
    && Without(p.iceUfrag, IsNewline) && Without(p.icePwd, IsNewline)
    && (!p.hasICE ==> p.iceUfrag == "" && p.icePwd == "")
    && Without(p.fingerprint, IsNewline) && Without(p.setup, IsNewline)
    && (!p.hasDTLS ==> p.fingerprint == "")
    && Clean(p.cryptoSuite) && Clean(p.cryptoKey)
    && (p.cryptoSuite == "" ==> p.cryptoKey == "")
    && (!p.hasSRTP ==> p.cryptoSuite == "")
    && IsDirection(p.direction)
    && CodecsOk(p.codecs)
  }

  lemma {:induction false} ParseRange(acc: int, s: string)
    requires -TWO63 <= acc < TWO63
    ensures -TWO63 <= ParseFrom(acc, s) < TWO63
    decreases |s|
  {
    if s != "" && IsDigit(s[0]) {
      ParseRange(Wrap64(acc * 10 + DigitValue(s[0])), s[1..]);
    }
  }

  /** Exactly the first codec with the payload type is changed. */
  lemma {:induction false} SetFmtpAt(codecs: seq<Codec>, pt: int, fmtp: string, i: nat)
    requires i < |codecs|
    ensures SetFmtp(codecs, pt, fmtp)[i] ==
            if codecs[i].payloadType == pt && (forall j :: 0 <= j < i ==> codecs[j].payloadType != pt)
            then codecs[i].(fmtp := fmtp) else codecs[i]
  {
    if i > 0 && codecs[0].payloadType != pt {
      SetFmtpAt(codecs[1..], pt, fmtp, i - 1);
    }
  }

  lemma SetFmtpOk(codecs: seq<Codec>, pt: int, fmtp: string)
    requires CodecsOk(codecs) && Without(fmtp, IsNewline) && (fmtp != "" ==> HasField(fmtp))
    ensures CodecsOk(SetFmtp(codecs, pt, fmtp))
  {
    hide SetFmtp;
    forall i | 0 <= i < |codecs|
      ensures SetFmtp(codecs, pt, fmtp)[i] ==
              if codecs[i].payloadType == pt && (forall j :: 0 <= j < i ==> codecs[j].payloadType != pt)
              then codecs[i].(fmtp := fmtp) else codecs[i]
    {
      SetFmtpAt(codecs, pt, fmtp, i);
    }
  }

  lemma SliceClean(s: string, bad: char -> bool, a: nat, b: nat)
    requires Without(s, bad) && a <= b <= |s|
    ensures Without(s[a..b], bad) && Without(s[a..], bad) && Without(s[..b], bad)
  {}

  lemma RtpmapOk(value: string, codecs: seq<Codec>)
    requires Without(value, IsNewline) && CodecsOk(codecs)
    ensures CodecsOk(codecs + ParseRtpmap(value))
  {
    hide ParseFrom, SplitFields, Pieces;
    var parts := SplitFields(value);
    FieldsClean(value, IsNewline);
    if |parts| >= 2 {
      assert parts[1] in parts;
      PiecesClean(parts[1], IsSlash, IsBlank);
      PiecesClean(parts[1], IsSlash, IsNewline);
      var cp := SplitSlash(parts[1]);
      if |cp| >= 3 {
        ParseRange(0, cp[2]);
      }
    }
  }

  lemma FmtpOk(value: string, codecs: seq<Codec>)
    requires Without(value, IsNewline) && CodecsOk(codecs)
    ensures CodecsOk(ParseFmtp(value, codecs))
  {
    hide CodecsOk, SetFmtp, ParseInt, SplitFields, HasField;
    var parts := SplitFields(value);
    if |parts| >= 2 {
      RestHasField(value);
      var k := |parts[0]| + 1;
      SliceClean(value, IsNewline, k, |value|);
      SetFmtpOk(codecs, ParseInt(parts[0]), value[k..]);
    }
  }

  lemma CryptoOk(value: string, p: Info)
    requires WellFormed(p) && Without(value, IsNewline)
    ensures WellFormed(ParseCrypto(value, p))
  {
    hide CodecsOk, SplitFields, IsDirection;
    var parts := SplitFields(value);
    FieldsClean(value, IsNewline);
    if |parts| >= 3 {
      assert parts[1] in parts && parts[2] in parts;
    }
  }

  lemma AttributeOk(name: string, value: string, p: Info)
    requires WellFormed(p) && Without(value, IsNewline)
    ensures WellFormed(ApplyAttribute(name, value, p))
  {
    hide CodecsOk, ParseRtpmap, ParseFmtp, ParseCrypto;
    match AttributeOf(name)
    case Rtpmap => RtpmapOk(value, p.codecs);
    case Fmtp => FmtpOk(value, p.codecs);
    case Crypto => CryptoOk(value, p);
    case _ =>
  }

  lemma ConnectionOk(value: string, p: Info)
    requires WellFormed(p) && Without(value, IsNewline)
    ensures WellFormed(ParseConnection(value, p))
  {
    hide CodecsOk, SplitFields, IsDirection;
    var parts := SplitFields(value);
    FieldsClean(value, IsNewline);
    if |parts| >= 3 {
      assert parts[2] in parts;
      var i := IndexOf(parts[2], '/');
      if i != -1 {
        SliceClean(parts[2], IsBlank, 0, i);
        SliceClean(parts[2], IsNewline, 0, i);
      }
    }
  }

  lemma MediaOk(value: string, st: Parsing)
    requires WellFormed(st.info) && Without(value, IsNewline)
    ensures WellFormed(ParseMedia(value, st).info)
  {
    hide CodecsOk, SplitFields, IsDirection, PayloadTypes, ParseInt;
    var parts := SplitFields(value);
    FieldsClean(value, IsNewline);
    if |parts| >= 4 {
      assert parts[0] in parts && parts[2] in parts;
    }
  }

  lemma LineOk(st: Parsing, line: string)
    requires WellFormed(st.info) && Without(line, IsNewline)
    ensures WellFormed(ParseLine(st, line).info)
  {
    hide WellFormed, ApplyAttribute, ParseConnection, ParseMedia;
    if |line| >= 2 {
      var value := line[2..];
      SliceClean(line, IsNewline, 2, |line|);
      ConnectionOk(value, st.info);
      MediaOk(value, st);
      var i := IndexOf(value, ':');
      if i == -1 {
        AttributeOk(value, "", st.info);
      } else {
        SliceClean(value, IsNewline, i + 1, |value|);
        AttributeOk(value[..i], value[i + 1..], st.info);
      }
    }
  }

  lemma {:induction false} LinesOk(st: Parsing, lines: seq<string>)
    requires WellFormed(st.info) && forall l <- lines :: Without(l, IsNewline)
    ensures WellFormed(ParseLines(st, lines).info)
    decreases |lines|
  {
    hide WellFormed, ParseLine;
    if lines != [] {
      LinesOk(st, lines[..|lines| - 1]);
      LineOk(ParseLines(st, lines[..|lines| - 1]), lines[|lines| - 1]);
    }
  }

  lemma {:induction false} StaticFillOk(known: seq<Codec>, payloadTypes: seq<int>)
    ensures forall i :: 0 <= i < |StaticFill(known, payloadTypes)| ==>
              CodecOk(StaticFill(known, payloadTypes)[i]) && StaticFill(known, payloadTypes)[i].fmtp == ""
  {
    if payloadTypes != [] {
      StaticFillOk(known, payloadTypes[..|payloadTypes| - 1]);
    }
  }

  /** Every parsed SDP is well formed, whatever the text. */
  lemma ParsedIsWellFormed(sdp: string)
    ensures WellFormed(Parse(sdp))
  {
    hide ParseLines, SplitLines, StaticFill;
    LinesClean(sdp);
    LinesOk(Parsing(INITIAL, []), SplitLines(sdp));
    var st := ParseLines(Parsing(INITIAL, []), SplitLines(sdp));
    StaticFillOk(st.info.codecs, st.payloadTypes);
  }
}
