/** Judging the response to a stream request: stream, retry later, or give up for good. */
module Handshake {
  import opened Numbers
  import opened Text
  import opened Wire

  datatype Failure =
    | AuthFailure | AuthorizationRejected | MountpointNotFound | ConfigInvalid
    | EmptyResponse | ProtocolError | WrongContent

  predicate IsTerminal(f: Failure) {
    f.AuthFailure? || f.MountpointNotFound? || f.AuthorizationRejected? || f.ConfigInvalid?
  }

  /** A status line split at white space; the code is missing when it is not a number. */
  datatype StatusLine = Blank | Line(protocol: string, code: Option<int>)

  datatype Check = Accepted | Refused(failure: Failure)

  predicate KnownProtocol(s: string) {
    Upper(s) in {"HTTP/1.0", "HTTP/1.1", "ICY"}
  }

  /** Bytes decoded as Latin-1. */
  function Decode(bytes: seq<byte>): string {
    seq(|bytes|, i requires 0 <= i < |bytes| => bytes[i] as int as char)
  }

  function Prefix(bytes: seq<byte>, n: nat): string {
    Decode(if |bytes| <= n then bytes else bytes[..n])
  }

  predicate StartsWith(s: string, head: string) {
    |head| <= |s| && s[..|head|] == head
  }

  predicate Contains(s: string, part: string) {
    exists i: nat | i <= |s| :: StartsWith(s[i..], part)
  }

  predicate LooksLikeSourceTable(body: seq<byte>) {
    var text := Prefix(body, 512);
    || StartsWith(text, "STR;") || StartsWith(text, "CAS;") || StartsWith(text, "NET;")
    || Contains(Upper(text), "ENDSOURCETABLE")
  }

  predicate LooksLikeHtml(body: seq<byte>) {
    var text := Upper(StripLeft(Prefix(body, 1024)));
    StartsWith(text, "<HTML") || StartsWith(text, "<!DOCTYPE")
  }

  function ValidateStreamResponse(status: StatusLine, body: seq<byte>): Check {
    match status
    case Blank => Refused(EmptyResponse)
    case Line(protocol, code) =>
      if !KnownProtocol(protocol) || code.None? then Refused(ProtocolError)
      else if code.value == 200 then
        if LooksLikeHtml(body) || LooksLikeSourceTable(body) then Refused(WrongContent) else Accepted
      else if code.value == 401 then Refused(AuthFailure)
      else if code.value == 403 then Refused(AuthorizationRejected)
      else if code.value == 404 then Refused(MountpointNotFound)
      else Refused(ProtocolError)
  }

  /** A well-formed refusal that retrying cannot cure. */
  predicate WellFormedDenial(status: StatusLine) {
    status.Line? && KnownProtocol(status.protocol) && status.code in {Some(401), Some(403), Some(404)}
  }

  /** Giving up for good happens on a well-formed 401, 403 or 404 and on nothing else. */
  lemma TerminalIffDenied(status: StatusLine, body: seq<byte>)
    ensures var check := ValidateStreamResponse(status, body);
            (check.Refused? && IsTerminal(check.failure)) <==> WellFormedDenial(status)
  {}

  /** A body that starts like a transport frame is refused only for an ENDSOURCETABLE in its text. */
  lemma FramesAreNotMistakenForPages(protocol: string, body: seq<byte>)
    requires KnownProtocol(protocol) && body != [] && body[0] == 0xD3
    ensures ValidateStreamResponse(Line(protocol, Some(200)), body).Accepted?
            <==> !Contains(Upper(Prefix(body, 512)), "ENDSOURCETABLE")
  {
    var first := Prefix(body, 512)[0];
    assert first == (0xD3 as byte) as int as char == '\U{D3}';
    assert Prefix(body, 1024)[0] == '\U{D3}';
    assert StripLeft(Prefix(body, 1024)) == Prefix(body, 1024);
    assert Upper(Prefix(body, 1024))[0] == '\U{D3}';
  }

  const TABLE_WORD := "ENDSOURCETABLE"

  /** The bytes that decode to the text. */
  function BytesOf(text: string): (bytes: seq<byte>)
    requires forall c <- text :: c as int < 256
    ensures Decode(bytes) == text
  {
    var bytes := seq(|text|, i requires 0 <= i < |text| => assert text[i] in text; text[i] as int as byte);
    forall i | 0 <= i < |text| ensures bytes[i] as int as char == text[i] {
      assert text[i] in text;
      ByteHolds(text[i] as int);
    }
    bytes
  }

  lemma WordIsAscii()
    ensures forall c <- TABLE_WORD :: 'A' <= c <= 'Z'
  {}

  /** A frame header of length 14 and a payload that spells the word. */
  function FrameWithWord(): seq<byte> {
    WordIsAscii();
    [0xD3, 0x00, 0x0E] + BytesOf(TABLE_WORD)
  }

  /** A stream whose first frame happens to spell ENDSOURCETABLE is refused as wrong content. */
  lemma FrameWithWordIsRefused()
    ensures ValidateStreamResponse(Line("ICY", Some(200)), FrameWithWord()) == Refused(WrongContent)
  {
    hide ValidateStreamResponse, Contains, Prefix, Upper;
    WordIsAscii();
    IcyIsKnown();
    FrameShowsWord(FrameWithWord(), 3, TABLE_WORD);
    FramesAreNotMistakenForPages("ICY", FrameWithWord());
    RefusedIsWrongContent(FrameWithWord());
  }

  lemma IcyIsKnown()
    ensures KnownProtocol("ICY")
  {
    assert Upper("ICY") == "ICY";
  }

  /** Capital letters among the first 512 bytes stay what they are. */
  lemma {:induction false} FrameShowsWord(body: seq<byte>, at: nat, word: string)
    requires at + |word| == |body| <= 512 && (forall c <- word :: 'A' <= c <= 'Z')
    requires Decode(body[at..]) == word
    ensures Contains(Upper(Prefix(body, 512)), word)
  {
    hide Contains;
    var text := Upper(Prefix(body, 512));
    forall i | 0 <= i < |word| ensures text[at + i] == word[i] {
      assert word[i] in word;
      assert Decode(body[at..])[i] == body[at..][i] as int as char == body[at + i] as int as char;
    }
    ContainsAt(text, at, word);
  }

  lemma {:induction false} ContainsAt(text: string, i: nat, part: string)
    requires i + |part| <= |text| && forall k :: 0 <= k < |part| ==> text[i + k] == part[k]
    ensures Contains(text, part)
  {
    assert text[i..][..|part|] == part;
    assert StartsWith(text[i..], part);
  }

  lemma RefusedIsWrongContent(body: seq<byte>)
    requires !ValidateStreamResponse(Line("ICY", Some(200)), body).Accepted?
    requires KnownProtocol("ICY")
    ensures ValidateStreamResponse(Line("ICY", Some(200)), body) == Refused(WrongContent)
  {}

  // ----- which responses are refused, from their bytes

  /** The text stands in the bytes at a place, within the first n of them, in any letter case. */
  predicate Spells(body: seq<byte>, at: nat, word: string, n: nat) {
    at + |word| <= |body| && at + |word| <= n && forall k :: 0 <= k < |word| ==> UpperChar(CharAt(body, at + k)) == word[k]
  }

  function CharAt(body: seq<byte>, i: nat): char
    requires i < |body|
  {
    body[i] as int as char
  }

  /** The bytes begin with the text as it is. */
  predicate Begins(body: seq<byte>, word: string) {
    |word| <= |body| && forall k :: 0 <= k < |word| ==> CharAt(body, k) == word[k]
  }

  predicate BlankUntil(body: seq<byte>, at: nat) {
    at <= |body| && forall j :: 0 <= j < at ==> IsSpace(CharAt(body, j))
  }

  lemma PrefixIs(body: seq<byte>, n: nat)
    ensures var text := Prefix(body, n);
            && |text| == (if |body| <= n then |body| else n)
            && forall k :: 0 <= k < |text| ==> text[k] == CharAt(body, k)
  {}

  lemma BeginsIff(body: seq<byte>, word: string, n: nat)
    requires |word| <= n
    ensures StartsWith(Prefix(body, n), word) <==> Begins(body, word)
  {
    hide Prefix, CharAt;
    PrefixIs(body, n);
    var text := Prefix(body, n);
    if StartsWith(text, word) {
      forall k | 0 <= k < |word| ensures CharAt(body, k) == word[k] {
        assert text[..|word|][k] == text[k];
      }
    }
    if Begins(body, word) {
      assert text[..|word|] == word;
    }
  }

  lemma SpellsIff(body: seq<byte>, at: nat, word: string, n: nat)
    requires at <= |Prefix(body, n)|
    ensures StartsWith(Upper(Prefix(body, n))[at..], word) <==> Spells(body, at, word, n)
  {
    hide Prefix, CharAt, UpperChar;
    PrefixIs(body, n);
    var text := Upper(Prefix(body, n));
    var tail := text[at..];
    if StartsWith(tail, word) {
      forall k | 0 <= k < |word| ensures UpperChar(CharAt(body, at + k)) == word[k] {
        assert tail[..|word|][k] == text[at + k];
      }
    }
    if Spells(body, at, word, n) {
      forall k | 0 <= k < |word| ensures tail[k] == word[k] {
        assert tail[k] == text[at + k];
      }
      assert tail[..|word|] == word;
    }
  }

  lemma ContainsIff(body: seq<byte>, word: string, n: nat)
    requires word != ""
    ensures Contains(Upper(Prefix(body, n)), word) <==> exists at: nat :: Spells(body, at, word, n)
  {
    hide Prefix, Spells, StartsWith, Upper;
    PrefixIs(body, n);
    var text := Upper(Prefix(body, n));
    forall at: nat | at <= |text| {
      SpellsIff(body, at, word, n);
    }
    forall at: nat | Spells(body, at, word, n) ensures at <= |text| {
      SpellsFits(body, at, word, n);
    }
  }

  lemma SpellsFits(body: seq<byte>, at: nat, word: string, n: nat)
    requires Spells(body, at, word, n)
    ensures at <= |body| && at <= n
  {}

  lemma {:induction false} StripLeftIs(s: string) returns (i: nat)
    ensures i <= |s| && StripLeft(s) == s[i..] && (forall j :: 0 <= j < i ==> IsSpace(s[j])) && (i < |s| ==> !IsSpace(s[i]))
  {
    hide IsSpace;
    if s != "" && IsSpace(s[0]) {
      var k := StripLeftIs(s[1..]);
      i := k + 1;
    } else {
      i := 0;
    }
  }

  lemma UpperTail(s: string, i: nat)
    requires i <= |s|
    ensures Upper(s[i..]) == Upper(s)[i..]
  {}

  /** Behind leading white space a tag opens the body, all within its first n bytes. */
  lemma OpensIff(body: seq<byte>, tag: string, n: nat)
    requires tag != "" && tag[0] == '<'
    ensures StartsWith(Upper(StripLeft(Prefix(body, n))), tag)
            <==> exists at: nat :: BlankUntil(body, at) && Spells(body, at, tag, n)
  {
    hide Prefix, IsSpace, StartsWith, Upper, Spells, CharAt;
    var text := Prefix(body, n);
    PrefixIs(body, n);
    var i := StripLeftIs(text);
    UpperTail(text, i);
    SpellsIff(body, i, tag, n);
    assert BlankUntil(body, i);
    forall at: nat | BlankUntil(body, at) && Spells(body, at, tag, n) ensures at == i {
      TagIsNoSpace(body, at, tag, n);
      OneFirst(body, at, i);
    }
  }

  lemma OneFirst(body: seq<byte>, at: nat, i: nat)
    requires BlankUntil(body, at) && BlankUntil(body, i) && at < |body| && !IsSpace(CharAt(body, at))
    requires i < at ==> i < |body| && !IsSpace(CharAt(body, i))
    ensures at == i
  {}

  lemma TagIsNoSpace(body: seq<byte>, at: nat, tag: string, n: nat)
    requires tag != "" && tag[0] == '<' && Spells(body, at, tag, n)
    ensures at < |body| && at < n && !IsSpace(CharAt(body, at))
  {
    assert UpperChar(CharAt(body, at + 0)) == '<';
  }

  /**
   * A 200 is accepted unless its first 1024 bytes open with an HTML tag behind white space, it begins with a
   * source-table record, or its first 512 bytes hold ENDSOURCETABLE; the tags and that word in any letter case.
   */
  lemma AcceptedIff(protocol: string, body: seq<byte>)
    requires KnownProtocol(protocol)
    ensures var check := ValidateStreamResponse(Line(protocol, Some(200)), body);
            && (check.Accepted?
                <==> && !(exists at: nat :: BlankUntil(body, at) && Spells(body, at, "<HTML", 1024))
                     && !(exists at: nat :: BlankUntil(body, at) && Spells(body, at, "<!DOCTYPE", 1024))
                     && !Begins(body, "STR;") && !Begins(body, "CAS;") && !Begins(body, "NET;")
                     && !(exists at: nat :: Spells(body, at, "ENDSOURCETABLE", 512)))
            && (check.Refused? ==> check.failure.WrongContent?)
  {
    hide Prefix, Spells, Begins, BlankUntil, StartsWith, Contains, Upper, StripLeft, KnownProtocol;
    OpensIff(body, "<HTML", 1024);
    OpensIff(body, "<!DOCTYPE", 1024);
    BeginsIff(body, "STR;", 512);
    BeginsIff(body, "CAS;", 512);
    BeginsIff(body, "NET;", 512);
    ContainsIff(body, "ENDSOURCETABLE", 512);
  }

  /** Every other response is refused, for the reason its code gives. */
  lemma RefusedFor(status: StatusLine, body: seq<byte>)
    requires status.Line? ==> status.code != Some(200) || !KnownProtocol(status.protocol)
    ensures ValidateStreamResponse(status, body)
            == Refused(if status.Blank? then EmptyResponse
                       else if Upper(status.protocol) !in {"HTTP/1.0", "HTTP/1.1", "ICY"} then ProtocolError
                       else if status.code == Some(401) then AuthFailure
                       else if status.code == Some(403) then AuthorizationRejected
                       else if status.code == Some(404) then MountpointNotFound
                       else ProtocolError)
  {
    hide Upper;
  }
}
