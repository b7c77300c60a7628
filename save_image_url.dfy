/**
 * The "Save Image (URL)" node: it turns a batch of images into one upload
 * record and one UI manifest entry per image. Each image is stored under a
 * file name made of the caller's prefix, a per-call random session suffix and
 * a 1-based counter, and is delivered either as a data URI or as the bare
 * base64 text.
 *
 * The image type `Img` and the JSON value type `J` are left abstract. The
 * random choices of the suffix are the input `picks`, `json.dumps` is the
 * function `dumps`, and pixel quantisation, PNG encoding with the text chunks
 * and base64 together are the function `encode`.
 */
module SaveImageUrl {
  import opened Wrappers
  import opened DecimalFormat

  /** The alphabet of the session suffix, spelled as the node spells it:
      'p' occurs twice (positions 15 and 21) and 'w' does not occur. */
  const SuffixAlphabet: string := "abcdefghijklmnopqrstupvxyz"
  const SuffixLength: nat := 5
  const TempMarker: string := "_temp_"
  const CounterWidth: nat := 5
  const PngExtension: string := ".png"
  const HtmlImage: string := "HTML_image"
  const DataUriPrefix: string := "data:image/png;base64,"
  const UploadType: string := "upload"
  const PromptKey: string := "prompt"

  /** The key and the text of one PNG text chunk (`PngInfo.add_text`). */
  type TextChunk = (string, string)

  /** One element of the JSON array that is posted: `{file_name, file_data}`. */
  datatype UploadRecord = UploadRecord(fileName: string, fileData: string)

  /** One element of the UI manifest: `{filename, type}`. */
  datatype ManifestEntry = ManifestEntry(filename: string, entryType: string)

  // ---------------------------------------------------------------------------
  // Session suffix

  /** The characters that can occur in the suffix. */
  predicate SuffixLetter(c: char) {
    'a' <= c <= 'z' && c != 'w'
  }

  /** Where a suffix letter sits in the alphabet (the first place, for 'p'). */
  function LetterIndex(c: char): (k: nat)
    requires SuffixLetter(c)
    ensures k < |SuffixAlphabet| && SuffixAlphabet[k] == c
  {
    if c == 'v' then 22 else c as int - 'a' as int
  }

  /** The alphabet holds lower-case letters other than 'w', and nothing else. */
  lemma AlphabetLetters()
    ensures |SuffixAlphabet| == 26
    ensures forall i :: 0 <= i < |SuffixAlphabet| ==> SuffixLetter(SuffixAlphabet[i])
    ensures forall c :: c in SuffixAlphabet <==> SuffixLetter(c)
    ensures SuffixAlphabet[15] == 'p' && SuffixAlphabet[21] == 'p'
  {
  }

  /** The random choices of one call: `SuffixLength` positions in the alphabet. */
  predicate ValidPicks(picks: seq<nat>) {
    |picks| == SuffixLength && forall i :: 0 <= i < |picks| ==> picks[i] < |SuffixAlphabet|
  }

  /** The suffix `''.join(random.choice(SuffixAlphabet) for x in range(5))`. */
  function SessionSuffix(picks: seq<nat>): (s: string)
    requires ValidPicks(picks)
    ensures |s| == SuffixLength
    ensures forall i :: 0 <= i < |s| ==> SuffixLetter(s[i])
  {
    AlphabetLetters();
    seq(SuffixLength, i requires 0 <= i < SuffixLength => SuffixAlphabet[picks[i]])
  }

  /** Every string of five suffix letters is the suffix of some choice. */
  lemma SuffixReachable(s: string)
    requires |s| == SuffixLength
    requires forall i :: 0 <= i < |s| ==> SuffixLetter(s[i])
    ensures exists picks :: ValidPicks(picks) && SessionSuffix(picks) == s
  {
    var picks := seq(SuffixLength, i requires 0 <= i < SuffixLength => LetterIndex(s[i]));
    assert ValidPicks(picks);
    assert SessionSuffix(picks) == s;
  }

  // ---------------------------------------------------------------------------
  // File names

  /** `filename_prefix + "_temp_" + suffix`: the caller's prefix, the marker
      and then exactly five suffix letters. */
  function SessionPrefix(prefix: string, picks: seq<nat>): (r: string)
    requires ValidPicks(picks)
    ensures |r| == |prefix| + |TempMarker| + SuffixLength
    ensures r[..|prefix|] == prefix
    ensures r[|prefix|..|prefix| + |TempMarker|] == TempMarker
    ensures forall i :: |prefix| + |TempMarker| <= i < |r| ==> SuffixLetter(r[i])
  {
    var suffix := SessionSuffix(picks);
    var r := prefix + TempMarker + suffix;
    assert forall i :: |prefix| + |TempMarker| <= i < |r| ==> r[i] == suffix[i - |prefix| - |TempMarker|];
    r
  }

  /** `f"{session}_{counter:05}.png"`: the session, an underscore, at least
      five digits, and the extension. The digits read back as the counter
      (`FileNameRoundTrip`). */
  function FileName(session: string, counter: nat): (r: string)
    ensures |r| == |session| + 1 + Max(CounterWidth, |Digits(counter)|) + |PngExtension|
    ensures r[..|session| + 1] == session + "_"
    ensures r[|r| - |PngExtension|..] == PngExtension
    ensures IsDigits(r[|session| + 1..|r| - |PngExtension|])
  {
    var digits := ZeroPadded(counter, CounterWidth);
    var r := session + "_" + digits + PngExtension;
    assert r[..|session| + 1] == session + "_";
    assert r[|r| - |PngExtension|..] == PngExtension;
    assert r[|session| + 1..|r| - |PngExtension|] == digits;
    r
  }

  /** Reads the counter back out of a file name of the given session. */
  function CounterOf(session: string, name: string): Option<nat> {
    var start := |session| + 1;
    if |name| >= start + |PngExtension|
       && name[..start] == session + "_"
       && name[|name| - |PngExtension|..] == PngExtension
       && IsDigits(name[start..|name| - |PngExtension|])
    then Some(ParseDecimal(name[start..|name| - |PngExtension|]))
    else None
  }

  /** Round trip: the counter read back from a file name is the one it was built from. */
  lemma FileNameRoundTrip(session: string, counter: nat)
    ensures CounterOf(session, FileName(session, counter)) == Some(counter)
  {
    var name := FileName(session, counter);
    var digits := ZeroPadded(counter, CounterWidth);
    var start := |session| + 1;
    assert name[..start] == session + "_";
    assert name[|name| - |PngExtension|..] == PngExtension;
    assert name[start..|name| - |PngExtension|] == digits;
    ParseZeroPadded(counter, CounterWidth);
  }

  /** Within one session, two counters give the same file name only if they are equal. */
  lemma FileNameInjective(session: string, m: nat, n: nat)
    ensures FileName(session, m) == FileName(session, n) <==> m == n
  {
    FileNameRoundTrip(session, m);
    FileNameRoundTrip(session, n);
  }

  /** The counters 1..n of one session give n pairwise distinct file names. */
  lemma FileNamesDistinct(session: string, n: nat)
    ensures forall i, j :: 1 <= i < j <= n ==> FileName(session, i) != FileName(session, j)
  {
    forall i, j | 1 <= i < j <= n ensures FileName(session, i) != FileName(session, j) {
      FileNameInjective(session, i, j);
    }
  }

  /** Records whose names are spelled out with counters 1, 2, ... carry
      `FileName`s, and no two of them share a name. */
  lemma RecordNames(session: string, records: seq<UploadRecord>)
    requires forall i :: 0 <= i < |records| ==>
      records[i].fileName == session + "_" + ZeroPadded(i + 1, CounterWidth) + PngExtension
    ensures forall i :: 0 <= i < |records| ==> records[i].fileName == FileName(session, i + 1)
    ensures forall i, j :: 0 <= i < j < |records| ==> records[i].fileName != records[j].fileName
  {
    FileNamesDistinct(session, |records|);
  }

  /** The layout of a file name whose counter has at most five digits:
      prefix, "_temp_", five suffix letters, "_", five digits reading back as
      the counter, ".png". */
  lemma FileNameLayout(prefix: string, picks: seq<nat>, counter: nat)
    requires ValidPicks(picks)
    requires counter < 100000
    ensures var name := FileName(SessionPrefix(prefix, picks), counter);
      var p := |prefix|;
      && |name| == p + 21
      && name[..p] == prefix
      && name[p..p + 6] == TempMarker
      && (forall i :: p + 6 <= i < p + 11 ==> SuffixLetter(name[i]))
      && name[p + 11] == '_'
      && IsDigits(name[p + 12..p + 17])
      && ParseDecimal(name[p + 12..p + 17]) == counter
      && name[p + 17..] == PngExtension
  {
    var session := SessionPrefix(prefix, picks);
    var suffix := SessionSuffix(picks);
    var digits := ZeroPadded(counter, CounterWidth);
    var name := FileName(session, counter);
    var p := |prefix|;
    assert Pow10(CounterWidth) == 100000;
    ZeroPaddedExactWidth(counter, CounterWidth);
    ParseZeroPadded(counter, CounterWidth);
    assert name == prefix + TempMarker + suffix + "_" + digits + PngExtension;
    assert name[p + 12..p + 17] == digits;
    forall i | p + 6 <= i < p + 11 ensures SuffixLetter(name[i]) {
      assert name[i] == suffix[i - p - 6];
    }
  }

  // ---------------------------------------------------------------------------
  // Payload and metadata

  /** The `file_data` field: a data URI for "HTML_image", the bare base64 text otherwise. */
  function FileData(dataFormat: string, encoded: string): (r: string)
    ensures dataFormat == HtmlImage ==>
      && |r| == |DataUriPrefix| + |encoded|
      && r[..|DataUriPrefix|] == DataUriPrefix
      && r[|DataUriPrefix|..] == encoded
    ensures dataFormat != HtmlImage ==> r == encoded
  {
    if dataFormat == HtmlImage then DataUriPrefix + encoded else encoded
  }

  /** Recovers the base64 text from a `file_data` field of the given format. */
  function EncodedOf(dataFormat: string, fileData: string): Option<string> {
    if dataFormat != HtmlImage then Some(fileData)
    else if |DataUriPrefix| <= |fileData| && fileData[..|DataUriPrefix|] == DataUriPrefix
    then Some(fileData[|DataUriPrefix|..])
    else None
  }

  /** Round trip in both directions: stripping by format recovers the encoded
      text, and a field decodes to some text exactly when it is that text's field. */
  lemma FileDataRoundTrip(dataFormat: string, encoded: string, fileData: string)
    ensures EncodedOf(dataFormat, FileData(dataFormat, encoded)) == Some(encoded)
    ensures EncodedOf(dataFormat, fileData) == Some(encoded) <==> FileData(dataFormat, encoded) == fileData
  {
  }

  /** One text chunk per entry of `extra_pnginfo`, in iteration order. */
  function ExtraEntries<J>(extra: seq<(string, J)>, dumps: J -> string): (r: seq<TextChunk>)
    ensures |r| == |extra|
    ensures forall i :: 0 <= i < |extra| ==> r[i] == (extra[i].0, dumps(extra[i].1))
  {
    if extra == [] then []
    else ExtraEntries(extra[..|extra| - 1], dumps) + [(extra[|extra| - 1].0, dumps(extra[|extra| - 1].1))]
  }

  /** All text chunks embedded in every image: the prompt first, then `extra_pnginfo`. */
  function MetadataEntries<J>(prompt: Option<J>, extra: Option<seq<(string, J)>>, dumps: J -> string): (r: seq<TextChunk>)
    ensures var skip := if prompt.Some? then 1 else 0;
      && |r| == skip + (if extra.Some? then |extra.value| else 0)
      && (prompt.Some? ==> r[0] == (PromptKey, dumps(prompt.value)))
      && (extra.Some? ==> forall i :: 0 <= i < |extra.value| ==>
            r[skip + i] == (extra.value[i].0, dumps(extra.value[i].1)))
  {
    (if prompt.Some? then [(PromptKey, dumps(prompt.value))] else [])
    + (if extra.Some? then ExtraEntries(extra.value, dumps) else [])
  }

  /** A fresh `PngInfo` filled by `add_text`, one chunk at a time: the prompt
      chunk if there is a prompt, then one chunk per `extra_pnginfo` entry. */
  method BuildMetadata<J>(prompt: Option<J>, extra: Option<seq<(string, J)>>, dumps: J -> string)
    returns (meta: seq<TextChunk>)
    ensures meta == MetadataEntries(prompt, extra, dumps)
  {
    meta := [];
    if prompt.Some? {
      meta := meta + [(PromptKey, dumps(prompt.value))];
    }
    ghost var head := meta;
    if extra.Some? {
      var items := extra.value;
      var j := 0;
      while j < |items|
        invariant 0 <= j <= |items|
        invariant meta == head + ExtraEntries(items[..j], dumps)
      {
        assert items[..j + 1][..j] == items[..j];
        meta := meta + [(items[j].0, dumps(items[j].1))];
        j := j + 1;
      }
      assert items[..|items|] == items;
    }
  }

  // ---------------------------------------------------------------------------
  // The node

  /**
   * `save_images` up to the HTTP POST: returns the record list that is posted
   * (`data_list`) and the manifest list returned to the UI (`results`).
   */
  method SaveImages<Img, J>(
    images: seq<Img>, dataFormat: string, filenamePrefix: string,
    prompt: Option<J>, extraPngInfo: Option<seq<(string, J)>>,
    picks: seq<nat>, dumps: J -> string, encode: (Img, seq<TextChunk>) -> string)
    returns (dataList: seq<UploadRecord>, results: seq<ManifestEntry>)
    requires ValidPicks(picks)
    ensures |dataList| == |images| && |results| == |images|
    ensures forall i :: 0 <= i < |images| ==>
      dataList[i] == UploadRecord(
        FileName(SessionPrefix(filenamePrefix, picks), i + 1),
        FileData(dataFormat, encode(images[i], MetadataEntries(prompt, extraPngInfo, dumps))))
    ensures forall i :: 0 <= i < |images| ==>
      results[i] == ManifestEntry(dataList[i].fileName, UploadType)
    ensures forall i, j :: 0 <= i < j < |images| ==> dataList[i].fileName != dataList[j].fileName
  {
    var session := filenamePrefix + TempMarker + SessionSuffix(picks);
    ghost var meta0 := MetadataEntries(prompt, extraPngInfo, dumps);
    results := [];
    var counter := 1;
    dataList := [];
    var k := 0;
    while k < |images|
      invariant 0 <= k <= |images|
      invariant counter == k + 1
      invariant |dataList| == k && |results| == k
      invariant forall i :: 0 <= i < k ==>
        dataList[i] == UploadRecord(
          session + "_" + ZeroPadded(i + 1, CounterWidth) + PngExtension,
          FileData(dataFormat, encode(images[i], meta0)))
      invariant forall i :: 0 <= i < k ==> results[i] == ManifestEntry(dataList[i].fileName, UploadType)
    {
      var meta := BuildMetadata(prompt, extraPngInfo, dumps);
      var file := session + "_" + ZeroPadded(counter, CounterWidth) + PngExtension;
      var encoded := encode(images[k], meta);
      var data := UploadRecord(file, FileData(dataFormat, encoded));
      counter := counter + 1;
      dataList := dataList + [data];
      results := results + [ManifestEntry(file, UploadType)];
      k := k + 1;
    }
    assert session == SessionPrefix(filenamePrefix, picks);
    RecordNames(session, dataList);
  }
}
