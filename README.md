# ComfyUI NetDist image nodes — Dafny model

This project models the two image nodes with real logic: one uploads a batch of
images to a URL, the other combines two image batches.

- **Save Image (URL)** (`SaveImageUrl.save_images`). It builds a session prefix
  `<prefix>_temp_<5 random letters>`. Then it walks the batch with a counter that
  starts at 1. For each image it embeds the metadata text chunks and encodes the
  image. It names the file `<session>_<counter:05>.png`. It wraps the base64 text
  in a `data:image/png;base64,` URI when the data format is `HTML_image`. Last, it
  appends one `{file_name, file_data}` record to the posted list and one
  `{filename, type: "upload"}` entry to the UI manifest.
- **Combine images** (`CombineImageBatch.combine_images`). It concatenates two
  batches along the batch dimension. If `torch.cat` rejects them because their
  per-image shapes differ, it returns the first batch unchanged.

Modules:

- `Wrappers` (`wrappers.dfy`): `Option`, which stands for Python's
  `None`-able parameters.
- `DecimalFormat` (`decimal_format.dfy`): Python's `0<width>` integer format.
  It has the digits, the zero fill and reading the string back.
- `SaveImageUrl` (`save_image_url.dfy`): the suffix alphabet, the session
  prefix, file names, `file_data`, the metadata chunks, and the two methods
  that hold the node's loops.
- `CombineImageBatch` (`combine_image_batch.dfy`): batches, `torch.cat` as a
  sum type (`Combined | Rejected`), and the node's fallback.

External capabilities become parameters of `SaveImages`:

- The random choices of the suffix are the input `picks`: five positions in the
  alphabet.
- `json.dumps` is the function `dumps`.
- Pixel quantisation, PNG encoding with the text chunks, and base64 are the
  single function `encode(image, chunks)`.
- `extra_pnginfo` is a sequence of (key, value) pairs in the dictionary's
  iteration order.

Facts about the code that the model keeps:

- The suffix alphabet is spelled `abcdefghijklmnopqrstupvxyz`. It repeats `p`
  and has no `w`. `AlphabetLetters` and `SessionSuffix` state this exactly.
- The data format is compared only with `"HTML_image"`. Every other string,
  not only `"Raw_data"`, gives the bare base64 text.
- The counter format `05` is a minimum width, not a truncation. From the
  100000th image on, the number part has six or more digits. File names stay
  distinct anyway (`FileNameInjective`).
- The manifest's `filename` is the record's `file_name` for every image
  (`SaveImages`).

## Model

| member | source | states |
|---|---|---|
| `SaveImageUrl.SaveImages` | nodes/images.py:65-96 | There is one record and one manifest entry per image, in batch order. Record i is named after session `prefix + "_temp_" + suffix` and counter i+1. Its data is `FileData` of the encoding of image i with the same metadata chunks for every image. Manifest entry i has record i's file name and type `"upload"`. All file names of one call are pairwise distinct. |
| `SaveImageUrl.BuildMetadata` | nodes/images.py:74-79 | The `PngInfo` filled by `add_text`, chunk by chunk, equals `MetadataEntries` of the prompt and `extra_pnginfo`. |
| `SaveImageUrl.MetadataEntries` | nodes/images.py:74-79 | The chunk list has length (prompt present ? 1 : 0) + (number of extra entries). `("prompt", dumps(prompt))` comes first when the prompt is present. Then extra entry k sits at position offset + k as `(key, dumps(value))`. The list is empty when both are absent. |
| `SaveImageUrl.ExtraEntries` | nodes/images.py:77-79 | There is one chunk per `extra_pnginfo` entry, in iteration order, with that key and the JSON text of its value. |
| `SaveImageUrl.SessionSuffix` | nodes/images.py:66 | The suffix has exactly 5 characters. Each one is a lower-case letter other than `w`. |
| `SaveImageUrl.SuffixReachable` | nodes/images.py:66 | Every 5-character string of lower-case letters other than `w` is the suffix of some valid choice. Together with `SessionSuffix`, these are exactly the possible suffixes. |
| `SaveImageUrl.AlphabetLetters` | nodes/images.py:66 | The alphabet has 26 positions. A character occurs in it if and only if it is a lower-case letter other than `w`. `p` sits at both positions 15 and 21. |
| `SaveImageUrl.LetterIndex` | nodes/images.py:66 | Every possible suffix letter has a position in the alphabet that holds it. |
| `SaveImageUrl.SessionPrefix` | nodes/images.py:66 | `filename_prefix + "_temp_" + suffix` is \|prefix\| + 11 characters long: the prefix, then `_temp_`, then five suffix letters. `FileNameLayout` builds on it. |
| `SaveImageUrl.FileName` | nodes/images.py:81 | `f"{session}_{counter:05}.png"` is the session and `_`, then at least five digits, then `.png`. Its length is \|session\| + 1 + max(5, digits of the counter) + 4. `FileNameRoundTrip` reads the counter back; `FileNameInjective`, `FileNamesDistinct` and `FileNameLayout` state its other properties. |
| `SaveImageUrl.FileData` | nodes/images.py:87 | For `HTML_image`, `file_data` is `data:image/png;base64,` followed by exactly the encoded text. For any other format it is the encoded text itself. `FileDataRoundTrip` inverts it. |
| `SaveImageUrl.FileNameRoundTrip` | nodes/images.py:81 | Reading the counter back out of `f"{session}_{counter:05}.png"` gives the counter. |
| `SaveImageUrl.FileNameInjective` | nodes/images.py:81 | Within one session, two file names are equal if and only if their counters are equal. |
| `SaveImageUrl.FileNamesDistinct` | nodes/images.py:68-88 | The counters 1..n of one session give n pairwise distinct file names. |
| `SaveImageUrl.FileNameLayout` | nodes/images.py:66-81 | For a counter below 100000 the name is `\|prefix\| + 21` characters long, in this order: the prefix, `_temp_`, five suffix letters, `_`, exactly five digits that read back as the counter, and `.png`. |
| `SaveImageUrl.FileDataRoundTrip` | nodes/images.py:87 | Stripping the `file_data` field by format recovers the encoded text. A field decodes to a text if and only if it is exactly that text's `file_data`. |
| `DecimalFormat.Digits` | nodes/images.py:81 | The decimal rendering is non-empty and all digits. It has no leading zero unless the number is 0. |
| `DecimalFormat.ZeroPadded` | nodes/images.py:81 | `f"{n:0w}"` is all digits. Its length is the larger of the width and the number of digits. |
| `DecimalFormat.ParseZeroPadded` | nodes/images.py:81 | Reading the zero-padded rendering back gives the number. |
| `DecimalFormat.ZeroPaddedInjective` | nodes/images.py:81 | Two numbers have the same padded rendering if and only if they are equal. |
| `DecimalFormat.DigitsLength` | nodes/images.py:81 | A number has at most k digits if and only if it is below 10^k. |
| `DecimalFormat.ZeroPaddedExactWidth` | nodes/images.py:81 | The padded rendering is exactly `width` characters long if and only if the number is below 10^width. For width 5 that means below 100000. |
| `CombineImageBatch.Cat` | nodes/images.py:122 | `torch.cat` along dim 0 succeeds if and only if the per-image shapes agree. The result keeps that shape and holds A's images followed by B's. A rejection carries both shapes. |
| `CombineImageBatch.CombineImages` | nodes/images.py:120-126 | The result always has A's per-image shape. When the shapes agree it has \|A\|+\|B\| images, with A's first and B's after. Otherwise it is A unchanged. |
| `CombineImageBatch.CombineKeepsFirst` | nodes/images.py:120-126 | In every case A's images are a prefix of the result. The result has between \|A\| and \|A\|+\|B\| images, and only images from A and B. |
| `CombineImageBatch.CombineAssociative` | nodes/images.py:120-126 | Nesting two combinations gives the same result both ways, except exactly when A and C agree in shape, B does not, and C is non-empty. |
| `CombineImageBatch.CombineSize` | nodes/images.py:122-125 | The tensor size is (n+m, h, w, c) for matching batches of n and m images. It is A's size on a mismatch. |

## Left out

- `LoadImageUrl.load_image_url` (nodes/images.py:29-41): an HTTP GET, a PIL decode and RGB conversion, and float division by 255 and the `1 - alpha` mask. These are network I/O, a foreign library and floating point.
- Pixel quantisation `np.clip(255 * image, 0, 255).astype(np.uint8)` (nodes/images.py:72-73): float arithmetic with truncation. It is part of the opaque `encode` parameter.
- PNG encoding at compression level 4 and base64 (nodes/images.py:73, 82-85): foreign library calls. They are modelled together as the `encode(image, chunks)` parameter.
- `json.dumps` (nodes/images.py:76, 79): an opaque serializer, the `dumps` parameter.
- `random.choice` (nodes/images.py:66): nondeterminism. The five chosen alphabet positions are the input `picks`.
- `requests.post(url, json=data_list)` and `raise_for_status` (nodes/images.py:94-95): network I/O and error propagation. `SaveImages` returns the list that would be posted and the manifest. It does not model the request or a failed HTTP status. The `{"ui": {"images": ...}}` wrapper is left out too.
- The mismatch diagnostic `print` (nodes/images.py:124): console output only.
- `CombineImages`: it models only the shape mismatch failure of `torch.cat`. Other `RuntimeError` causes, such as a device mismatch, are not modelled. Neither are dtype promotion and the fact that the fallback returns the very same tensor object (aliasing).
- `CombineImages`: it assumes both inputs are four-dimensional image batches. Tensors of other ranks are not modelled.
- Node registration (`INPUT_TYPES`, `RETURN_TYPES`, `FUNCTION`, `CATEGORY`, `TITLE`, `NODE_CLASS_MAPPINGS`, nodes/images.py:16-27, 47-63, 105-118, 129-133): host plumbing with no behaviour. The default `filename_prefix = "ComfyUI"` is a default argument. `SaveImages` takes the prefix explicitly.
