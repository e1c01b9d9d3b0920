/**
 * A plain pair of address printers and parsers that meets the contract `Faithful`, so that the
 * results about the URL parser are not about nothing: IPv4 addresses as one decimal number, IPv6
 * addresses as eight hexadecimal pieces.  The printers of lws, with dots and "::", are not modelled.
 */
module UrlNatives {
  import opened Numerals
  import opened Seqs
  import opened UrlRecord
  import opened Wrappers

  function Number4(s: string): Option<nat> {
    if AllDigits(s) && DecimalValue(s) < 0x1_0000_0000 then Some(DecimalValue(s)) else None
  }

  predicate IsPiece(s: string) {
    AllHex(s) && HexValue(s) < 0x10000
  }

  function Pieces6(s: string): (r: Option<seq<nat>>)
    ensures r.Some? ==> IsPieces(r.value)
  {
    var parts := Split(s, ':');
    if |parts| == 8 && forall k :: 0 <= k < 8 ==> IsPiece(parts[k]) then
      Some(seq(8, k requires 0 <= k < 8 => HexValue(parts[k])))
    else None
  }

  function PieceTexts(p: seq<nat>): seq<string> {
    seq(|p|, k requires 0 <= k < |p| => Hex(p[k]))
  }

  const UNCOMPRESSED := Natives(Number4, Decimal, Pieces6, p => Join(PieceTexts(p), ':'))

  lemma {:induction false} JoinChars(parts: seq<string>)
    requires forall k :: 0 <= k < |parts| ==> AllHex(parts[k])
    ensures ColonHex(Join(parts, ':'))
  {
    if |parts| > 1 {
      JoinChars(parts[1..]);
      assert AllHex(parts[0]);
    }
  }

  lemma PieceReadsBack(v: nat)
    requires v < 0x10000
    ensures ':' !in Hex(v) && IsPiece(Hex(v)) && HexValue(Hex(v)) == v
  {
    HexValueOfHex(v);
  }

  lemma PiecesReadBack(p: seq<nat>)
    requires IsPieces(p)
    ensures ColonHex(Join(PieceTexts(p), ':')) && Pieces6(Join(PieceTexts(p), ':')) == Some(p)
  {
    var parts := PieceTexts(p);
    forall k | 0 <= k < |parts|
      ensures ':' !in parts[k] && IsPiece(parts[k]) && HexValue(parts[k]) == p[k]
    {
      PieceReadsBack(p[k]);
    }
    JoinChars(parts);
    SplitJoin(parts, ':');
    assert Pieces6(Join(parts, ':')).value == p;
  }

  lemma NumberReadBack(a: nat)
    requires a < 0x1_0000_0000
    ensures DottedNumber(Decimal(a)) && Number4(Decimal(a)) == Some(a)
  {
    DecimalValueOfDecimal(a);
  }

  /** The contract of the native parsers and printers can be met. */
  lemma UncompressedFaithful()
    ensures Faithful(UNCOMPRESSED)
  {
    forall a: nat | a < 0x1_0000_0000
      ensures DottedNumber(UNCOMPRESSED.print4(a)) && UNCOMPRESSED.parse4(UNCOMPRESSED.print4(a)) == Some(a)
    {
      NumberReadBack(a);
    }
    forall p | IsPieces(p)
      ensures ColonHex(UNCOMPRESSED.print6(p)) && UNCOMPRESSED.parse6(UNCOMPRESSED.print6(p)) == Some(p)
    {
      PiecesReadBack(p);
    }
  }
}
