/** Reading the uploaded id list (`try_read_file`): the raw bytes are decoded
    with the first encoding of a fixed list that accepts them, and the text is
    split into lines. The codecs themselves are an oracle:
    `decode(encoding, raw)` is the decoded text, or None when `bytes.decode`
    raises for that encoding. */
module Upload {
  import opened Sequences
  import opened Text
  import opened Web

  /** The encodings tried, in order. */
  const Encodings: seq<string> :=
    ["utf-8", "shift_jis", "cp932", "iso-2022-jp", "utf-16", "utf-16-le", "utf-16-be"]

  /** UTF-8 first, then the Japanese codecs, then UTF-16 with and without a
      byte-order mark; no encoding is tried twice. */
  lemma EncodingsOrder()
    ensures |Encodings| == 7 && Encodings[0] == "utf-8"
    ensures Encodings[1] == "shift_jis" && Encodings[4] == "utf-16"
    ensures forall i, j :: 0 <= i < j < |Encodings| ==> Encodings[i] != Encodings[j]
  {
  }

  /** The text of the first encoding in `encs` that decodes `raw`, if any. */
  function FirstDecoded(encs: seq<string>, raw: Bytes, decode: (string, Bytes) -> Option<string>): (r: Option<string>)
    ensures r.None? <==> forall k :: 0 <= k < |encs| ==> decode(encs[k], raw).None?
    decreases |encs|
  {
    if encs == [] then None
    else if decode(encs[0], raw).Some? then decode(encs[0], raw)
    else FirstDecoded(encs[1..], raw, decode)
  }

  /** The encoding that wins is the earliest that succeeds: whatever the later
      ones would give does not matter. */
  lemma {:induction false} FirstDecodedIsEarliest(encs: seq<string>, raw: Bytes, decode: (string, Bytes) -> Option<string>, k: nat)
    requires k < |encs| && decode(encs[k], raw).Some?
    requires forall j :: 0 <= j < k ==> decode(encs[j], raw).None?
    ensures FirstDecoded(encs, raw, decode) == decode(encs[k], raw)
    decreases k
  {
    if k > 0 {
      assert decode(encs[0], raw).None?;
      assert forall j :: 0 <= j < k - 1 ==> encs[1..][j] == encs[j + 1];
      FirstDecodedIsEarliest(encs[1..], raw, decode, k - 1);
    }
  }

  /** The lines the upload yields: those of the first successful decoding, or
      none at all when no encoding decodes the bytes. No line holds a break. */
  function UploadLines(raw: Bytes, decode: (string, Bytes) -> Option<string>): (r: seq<string>)
    ensures (forall k :: 0 <= k < |Encodings| ==> decode(Encodings[k], raw).None?) ==> r == []
    ensures forall l, i :: 0 <= l < |r| && 0 <= i < |r[l]| ==> !IsLineBreak(r[l][i])
  {
    match FirstDecoded(Encodings, raw, decode)
    case Some(text) => SplitLines(text)
    case None => []
  }

  /** A file that is valid UTF-8 is read as UTF-8, whatever the other codecs
      would make of it. */
  lemma Utf8First(raw: Bytes, decode: (string, Bytes) -> Option<string>)
    requires decode("utf-8", raw).Some?
    ensures UploadLines(raw, decode) == SplitLines(decode("utf-8", raw).value)
  {
    FirstDecodedIsEarliest(Encodings, raw, decode, 0);
  }

  /** `try_read_file(file)`: tries each encoding in turn, returning the lines
      of the first that decodes; when none does, reports failure (the error
      message shown to the user) and returns no line. */
  method TryReadFile(raw: Bytes, decode: (string, Bytes) -> Option<string>) returns (lines: seq<string>, failed: bool)
    ensures lines == UploadLines(raw, decode)
    ensures failed <==> forall k :: 0 <= k < |Encodings| ==> decode(Encodings[k], raw).None?
    ensures failed ==> lines == []
  {
    var encodings := Encodings;
    for i := 0 to |encodings|
      invariant forall j :: 0 <= j < i ==> decode(encodings[j], raw).None?
    {
      var decoded := decode(encodings[i], raw);
      if decoded.Some? {
        FirstDecodedIsEarliest(encodings, raw, decode, i);
        return SplitLines(decoded.value), false;
      }
    }
    return [], true;
  }
}
