/** `convertDerCertificateToPem`: the base64 text of a DER certificate cut
    into lines of 64 characters and, unless the boundaries are stripped,
    framed by the certificate header and footer lines of section 5.1 of
    RFC 7468. Also the reading that undoes it. */
module Pem {
  import opened Results
  import opened Text
  import opened Base64

  const LineLength := 64
  const Header := "-----BEGIN CERTIFICATE-----"
  const Footer := "-----END CERTIFICATE-----"

  /** `text.match(/.{1,64}/g)` on text without line terminators (base64
      text has none): consecutive pieces of 64 characters, the last one
      possibly shorter. */
  function Lines(s: string): (ls: seq<string>)
    ensures Concat(ls) == s
    ensures |ls| == 0 <==> |s| == 0
    ensures forall i | 0 <= i < |ls| :: 0 < |ls[i]| <= LineLength
    ensures forall i | 0 <= i < |ls| - 1 :: |ls[i]| == LineLength
    ensures Excludes(s, '\n') ==> forall i | 0 <= i < |ls| :: Excludes(ls[i], '\n')
    decreases |s|
  {
    if |s| == 0 then []
    else if |s| <= LineLength then [s]
    else
      var rest := Lines(s[LineLength..]);
      var ls := [s[..LineLength]] + rest;
      assert ls[1..] == rest;
      assert s == s[..LineLength] + s[LineLength..];
      ls
  }

  /** Pieces cut the way `Lines` cuts: none empty, none longer than a line,
      and all but the last exactly a line long. */
  predicate WellCut(ls: seq<string>) {
    && (forall i | 0 <= i < |ls| :: 0 < |ls[i]| <= LineLength)
    && (forall i | 0 <= i < |ls| - 1 :: |ls[i]| == LineLength)
  }

  /** `Lines` is the only well-cut way to lay out a text. */
  lemma {:induction false} LinesUnique(ls: seq<string>)
    requires WellCut(ls)
    ensures Lines(Concat(ls)) == ls
  {
    if |ls| > 0 {
      var s := Concat(ls);
      var tail := Concat(ls[1..]);
      assert WellCut(ls[1..]) by {
        assert forall i | 0 <= i < |ls| - 1 :: ls[1..][i] == ls[i + 1];
      }
      LinesUnique(ls[1..]);
      if |ls| == 1 {
        assert tail == "";
        assert s == ls[0];
      } else {
        assert |tail| > 0 by {
          assert Concat(ls[1..]) == ls[1] + Concat(ls[2..]);
        }
        assert s == ls[0] + tail;
        assert s[..LineLength] == ls[0] && s[LineLength..] == tail;
        assert ls == [ls[0]] + ls[1..];
      }
    }
  }

  /** The base64 body: the lines joined with line feeds. */
  function Body(der: seq<Byte>): string {
    Join(Lines(Encode(der)), "\n")
  }

  /** The body between the header and footer lines. */
  function Frame(body: string): (pem: string)
    ensures |pem| == |Header| + 1 + |body| + 1 + |Footer|
    ensures StartsWith(pem, Header + "\n")
    ensures pem[|pem| - |Footer| - 1..] == "\n" + Footer
    ensures pem[|Header| + 1..|pem| - |Footer| - 1] == body
  {
    var pem := Header + "\n" + body + "\n" + Footer;
    assert pem[..|Header| + 1] == Header + "\n";
    assert pem[|pem| - |Footer| - 1..] == "\n" + Footer;
    assert pem[|Header| + 1..|pem| - |Footer| - 1] == body;
    pem
  }

  /** `convertDerCertificateToPem(derBuffer, stripBoundaries)`. An empty
      buffer has empty base64 text, on which the line match yields `null`
      and the join throws: no result. */
  function ConvertDerCertificateToPem(der: seq<Byte>, stripBoundaries: bool): (pem: Option<string>)
    ensures pem.None? <==> |der| == 0
    ensures pem.Some? && stripBoundaries ==> pem.value == Body(der)
    ensures pem.Some? && !stripBoundaries ==>
      && |pem.value| == |Header| + 1 + |Body(der)| + 1 + |Footer|
      && StartsWith(pem.value, Header + "\n")
      && pem.value[|pem.value| - |Footer| - 1..] == "\n" + Footer
      && pem.value[|Header| + 1..|pem.value| - |Footer| - 1] == Body(der)
  {
    var text := Encode(der);
    if |Lines(text)| == 0 then None
    else
      var body := Join(Lines(text), "\n");
      if stripBoundaries then Some(body)
      else
        Some(Frame(body))
  }

  /** The text between the header and footer lines, if `pem` has them. */
  function Unframe(pem: string): (body: Option<string>)
    ensures body.Some? ==> Frame(body.value) == pem
  {
    var h, f := |Header| + 1, |Footer| + 1;
    if |pem| < h + f || pem[..h] != Header + "\n" || pem[|pem| - f..] != "\n" + Footer then None
    else
      var body := pem[h..|pem| - f];
      assert pem == pem[..h] + body + pem[|pem| - f..];
      Some(body)
  }

  lemma UnframeFrame(body: string)
    ensures Unframe(Frame(body)) == Some(body)
  {
    var pem := Frame(body);
    var h, f := |Header| + 1, |Footer| + 1;
    assert pem[..h] == Header + "\n";
    assert pem[|pem| - f..] == "\n" + Footer;
    assert pem[h..|pem| - f] == body;
  }

  /** Reads a certificate back from PEM text: the frame (unless stripped),
      lines cut as `Lines` cuts them, then base64. */
  function ParsePem(pem: string, stripBoundaries: bool): Option<seq<Byte>> {
    var body := if stripBoundaries then Some(pem) else Unframe(pem);
    if body.None? then None
    else
      var lines := Split(body.value, '\n');
      if !WellCut(lines) then None else Decode(Concat(lines))
  }

  /** Reading the PEM text of a certificate gives the certificate back. */
  lemma ParseConverted(der: seq<Byte>, stripBoundaries: bool)
    requires |der| > 0
    ensures ParsePem(ConvertDerCertificateToPem(der, stripBoundaries).value, stripBoundaries) == Some(der)
  {
    var text := Encode(der);
    assert Excludes(text, '\n');
    SplitJoin(Lines(text), '\n');
    DecodeEncode(der);
    UnframeFrame(Body(der));
  }

  /** Every PEM text `ParsePem` accepts is the one the conversion writes
      for the certificate it reads. */
  lemma ConvertParsed(pem: string, stripBoundaries: bool)
    requires ParsePem(pem, stripBoundaries).Some?
    ensures ConvertDerCertificateToPem(ParsePem(pem, stripBoundaries).value, stripBoundaries) == Some(pem)
  {
    var body := if stripBoundaries then pem else Unframe(pem).value;
    var lines := Split(body, '\n');
    var der := ParsePem(pem, stripBoundaries).value;
    EncodeDecode(Concat(lines));
    LinesUnique(lines);
    JoinSplit(body, '\n');
    assert Body(der) == body;
  }
}
