/** Classification of a file's text encoding from its byte order mark, as
    `DetectFileEncoding` does it on both kinds of node. The signatures are the
    byte order marks of the Unicode Standard, section 23.8 (Byte Order Mark),
    of RFC 3629, section 6 (UTF-8) and of RFC 2152 (the `+/v` prefix of UTF-7). */
module Encodings {
  import opened Common

  datatype TextEncoding =
    | Utf7            // Encoding.UTF7
    | Utf8            // Encoding.UTF8
    | Utf32LE         // Encoding.UTF32
    | Utf16LE         // Encoding.Unicode
    | Utf16BE         // Encoding.BigEndianUnicode
    | Utf32BE         // new UTF32Encoding(true, true)
    | SystemDefault   // Encoding.Default

  /** `Encoding.WebName`; the name of the system default is given. */
  function WebName(e: TextEncoding, defaultName: string): string {
    match e
    case Utf7 => "utf-7"
    case Utf8 => "utf-8"
    case Utf32LE => "utf-32"
    case Utf16LE => "utf-16"
    case Utf16BE => "utf-16BE"
    case Utf32BE => "utf-32BE"
    case SystemDefault => defaultName
  }

  /** The `new byte[4]` buffer after `Read(bom, 0, 4)`: the first four bytes of
      the file, left at zero past its end. */
  function BomBytes(file: seq<bv8>): seq<bv8> {
    seq(4, i requires 0 <= i < 4 => if i < |file| then file[i] else 0)
  }

  /** The decision table, tried top to bottom. When no signature matches,
      `sniffedUnicode` says whether a StreamReader opened with the system
      default encoding switched to another one while reading a sample. */
  function DetectFileEncoding(file: seq<bv8>, sniffedUnicode: bool): (r: TextEncoding)
    ensures r == Utf7 <==> |file| >= 3 && file[..3] == [0x2B, 0x2F, 0x76]
    ensures r == Utf8 ==> sniffedUnicode || (|file| >= 3 && file[..3] == [0xEF, 0xBB, 0xBF])
    ensures r == SystemDefault ==> !sniffedUnicode
  {
    var bom := BomBytes(file);
    if bom[0] == 0x2B && bom[1] == 0x2F && bom[2] == 0x76 then Utf7
    else if bom[0] == 0xEF && bom[1] == 0xBB && bom[2] == 0xBF then Utf8
    else if bom[0] == 0xFF && bom[1] == 0xFE && bom[2] == 0 && bom[3] == 0 then Utf32LE
    else if bom[0] == 0xFF && bom[1] == 0xFE then Utf16LE
    else if bom[0] == 0xFE && bom[1] == 0xFF then Utf16BE
    else if bom[0] == 0 && bom[1] == 0 && bom[2] == 0xFE && bom[3] == 0xFF then Utf32BE
    else if sniffedUnicode then Utf8
    else SystemDefault
  }

  /** A byte order mark and the encoding it announces. */
  datatype Signature = Signature(mark: seq<bv8>, encoding: TextEncoding)

  /** The signatures in the order the table tests them. UTF-32LE comes before
      UTF-16LE because its mark begins with the UTF-16LE mark. */
  const Signatures: seq<Signature> := [
    Signature([0x2B, 0x2F, 0x76], Utf7),
    Signature([0xEF, 0xBB, 0xBF], Utf8),
    Signature([0xFF, 0xFE, 0x00, 0x00], Utf32LE),
    Signature([0xFF, 0xFE], Utf16LE),
    Signature([0xFE, 0xFF], Utf16BE),
    Signature([0x00, 0x00, 0xFE, 0xFF], Utf32BE)
  ]

  /** The first signature of `table`, from position `from` on, whose mark
      begins `bytes`. */
  function FirstSignatureFrom(bytes: seq<bv8>, table: seq<Signature>, from: nat): (r: Option<TextEncoding>)
    requires from <= |table|
    decreases |table| - from
    ensures r.None? <==> forall k :: from <= k < |table| ==> !(table[k].mark <= bytes)
    ensures r.Some? ==> exists k :: (from <= k < |table| && table[k].mark <= bytes && table[k].encoding == r.value &&
      forall j :: from <= j < k ==> !(table[j].mark <= bytes))
  {
    if from == |table| then None
    else if table[from].mark <= bytes then Some(table[from].encoding)
    else FirstSignatureFrom(bytes, table, from + 1)
  }

  function FirstSignature(bytes: seq<bv8>, table: seq<Signature>): Option<TextEncoding> {
    FirstSignatureFrom(bytes, table, 0)
  }

  /** The chain of tests is exactly "first matching signature, else the
      sniffing fallback". */
  lemma DetectFollowsSignatures(file: seq<bv8>, sniffedUnicode: bool)
    ensures DetectFileEncoding(file, sniffedUnicode) ==
      match FirstSignature(BomBytes(file), Signatures)
      case Some(e) => e
      case None => if sniffedUnicode then Utf8 else SystemDefault
  {
    var bom := BomBytes(file);
    assert |bom| == 4;
    assert Signatures[0].mark <= bom <==> bom[0] == 0x2B && bom[1] == 0x2F && bom[2] == 0x76;
    assert Signatures[1].mark <= bom <==> bom[0] == 0xEF && bom[1] == 0xBB && bom[2] == 0xBF;
    assert Signatures[2].mark <= bom <==> bom[0] == 0xFF && bom[1] == 0xFE && bom[2] == 0 && bom[3] == 0;
    assert Signatures[3].mark <= bom <==> bom[0] == 0xFF && bom[1] == 0xFE;
    assert Signatures[4].mark <= bom <==> bom[0] == 0xFE && bom[1] == 0xFF;
    assert Signatures[5].mark <= bom <==> bom[0] == 0 && bom[1] == 0 && bom[2] == 0xFE && bom[3] == 0xFF;
  }

  /** A file that begins with one of the standard marks is classified by it;
      FF FE followed by two zero bytes counts as UTF-32LE, not UTF-16LE. */
  lemma StandardMarksRecognised(file: seq<bv8>, sniffedUnicode: bool)
    ensures |file| >= 3 && file[..3] == [0x2B, 0x2F, 0x76] ==> DetectFileEncoding(file, sniffedUnicode) == Utf7
    ensures |file| >= 3 && file[..3] == [0xEF, 0xBB, 0xBF] ==> DetectFileEncoding(file, sniffedUnicode) == Utf8
    ensures |file| >= 4 && file[..4] == [0xFF, 0xFE, 0x00, 0x00] ==> DetectFileEncoding(file, sniffedUnicode) == Utf32LE
    ensures |file| >= 4 && file[..2] == [0xFF, 0xFE] && (file[2] != 0 || file[3] != 0) ==>
      DetectFileEncoding(file, sniffedUnicode) == Utf16LE
    ensures |file| >= 2 && file[..2] == [0xFE, 0xFF] ==> DetectFileEncoding(file, sniffedUnicode) == Utf16BE
    ensures |file| >= 4 && file[..4] == [0x00, 0x00, 0xFE, 0xFF] ==> DetectFileEncoding(file, sniffedUnicode) == Utf32BE
  {
    if |file| >= 2 {
      assert file[0] == file[..2][0] && file[1] == file[..2][1];
    }
    if |file| >= 3 {
      assert file[2] == file[..3][2];
    }
    if |file| >= 4 {
      assert file[2] == file[..4][2] && file[3] == file[..4][3];
    }
  }

  /** Because the four-byte buffer starts zeroed, a file that holds only the
      UTF-16LE mark (or the mark and one zero byte) is reported as UTF-32LE,
      and an empty file matches no mark. */
  lemma ShortFilesArePadded(sniffedUnicode: bool)
    ensures DetectFileEncoding([0xFF, 0xFE], sniffedUnicode) == Utf32LE
    ensures DetectFileEncoding([0xFF, 0xFE, 0x00], sniffedUnicode) == Utf32LE
    ensures DetectFileEncoding([], sniffedUnicode) == if sniffedUnicode then Utf8 else SystemDefault
  {
  }
}
