# DiveObjectHelper: the display strings of a dive

This project models the `DiveObjectHelper` class of Subsurface's Qt layer, in Dafny. The user interface asks this class for the text of every field of one dive. Its constructor reads a `struct dive` once and fills the display strings:

- placeholders: a field with no value reads as `"--"`;
- notes: text notes have their line breaks turned into `<br>`, and planner notes go through an HTML-to-text conversion;
- an early return: a dive with empty notes stops after its notes and leaves the remaining strings empty;
- the gas summary: the gases of the used cylinders, with no duplicates, joined by `" / "`;
- one formatted line per cylinder slot and per weight-system slot.

Two accessors read the cylinder and weight lines back and give the placeholder for any index outside the list.

The project has three modules:

- `Text` (`text.dfy`): string operations over `seq<char>`, both those the class calls and the reference definitions its results are proved against.
  - `IndexOf` models `QString::indexOf`, which the class calls. A lemma ties it to a ghost definition of substring occurrence.
  - `ReplaceAll` models `QString::replace`, which the class calls.
  - `Join` is not called by the class. It is the reference definition of a list joined by a separator, and the gas loop's `+=` steps are proved equal to it.
  - `IntToString` is not called by the class either. It is the decimal text the CNS and OTU fields are evidently meant to hold (see "## Findings"), and a parser is its inverse.
- `Dives` (`dives.dfy`): the parts of `struct dive` the class reads.
  - C strings that may be null become `Option<string>`.
  - The fixed cylinder and weight-system arrays become sequences of their declared sizes: 8 and 6.
  - The unit-formatting and lookup helpers of the application are grouped in `Formatters`, a record of total functions. The constructor takes this record as a parameter, so every property below holds whatever those helpers return.
- `DiveView` (`dive_view.dfy`):
  - the two static formatting helpers;
  - the gas-summary specification, with the loop that is proved against it;
  - the class `DiveObjectHelper`, whose constructor sets its fields and whose `Weight` and `Cylinder` functions are the bounded accessors.

## Model

| member | source | states |
|---|---|---|
| DiveView.FormattedWeight | subsurface-core/subsurface-qt/DiveObjectHelper.cpp:12-20 | The result is `"--"` exactly when the weight system has no description. Otherwise it is the description, `", "` and the weight text. |
| DiveView.FormattedCylinder | subsurface-core/subsurface-qt/DiveObjectHelper.cpp:22-34 | The result is `"--"` exactly when the cylinder has no description and is not slot 0. Otherwise it starts with the label and `", "`, then gives size, working pressure, start and end pressure and gas, comma-separated. Slot 0 without a description starts with `"unknown"`. |
| DiveView.TextOrPlaceholder | subsurface-core/subsurface-qt/DiveObjectHelper.cpp:41-48 | A null C string reads as `"--"`; a non-null one reads as its text. This covers location, divemaster, buddy and suit. |
| DiveView.TripText | subsurface-core/subsurface-qt/DiveObjectHelper.cpp:49 | A dive outside any trip reads `"--"`. Otherwise the text is the trip's location, with a null location read as empty. |
| DiveView.OrPlaceholder | subsurface-core/subsurface-qt/DiveObjectHelper.cpp:58-63 | An empty temperature text becomes `"--"` and a non-empty one is kept. The result is never empty. |
| DiveView.DisplayNotes | subsurface-core/subsurface-qt/DiveObjectHelper.cpp:70-84 | For a dive not made by the planner, every `'\n'` becomes `"<br>"`: notes split at a line break as a, `'\n'`, b display as the replaced a, `"<br>"`, the replaced b. No `'\n'` remains, and notes without one are shown unchanged. |
| DiveView.GasEntry | subsurface-core/subsurface-qt/DiveObjectHelper.cpp:97-98 | A cylinder's gas text is its description (a null one read as empty), a space only when the description is non-empty, and its gas name. It is empty exactly when both are empty. |
| DiveView.UsedGasEntriesAreUsedCylinders | subsurface-core/subsurface-qt/DiveObjectHelper.cpp:94-98 | The gas texts offered to the summary are exactly those of the used cylinders. |
| DiveView.UsedGasEntriesStep | subsurface-core/subsurface-qt/DiveObjectHelper.cpp:94-105 | An unused cylinder i leaves the kept list as it was. For a used one, its gas text is appended exactly when that text is non-empty and new; otherwise the list stays as it was. |
| DiveView.GasAppend | subsurface-core/subsurface-qt/DiveObjectHelper.cpp:101-103 | Adding `" / "` when something was already added, and then the entry, gives the join of the kept entries plus the new one. |
| DiveView.DeduplicatedSound | subsurface-core/subsurface-qt/DiveObjectHelper.cpp:100-103 | Every kept entry is non-empty and comes from the input. |
| DiveView.DeduplicatedComplete | subsurface-core/subsurface-qt/DiveObjectHelper.cpp:100 | Every non-empty entry of the input occurs as a substring of the summary. An entry is skipped only when it is already there. |
| DiveView.DeduplicatedNewWhenKept | subsurface-core/subsurface-qt/DiveObjectHelper.cpp:100 | No kept entry occurs as a substring of the summary of the entries kept before it. |
| DiveView.DeduplicatedDistinct | subsurface-core/subsurface-qt/DiveObjectHelper.cpp:100-105 | The summary never names the same entry twice. |
| DiveView.SubstringTestSkipsDistinctGas | subsurface-core/subsurface-qt/DiveObjectHelper.cpp:100 | The test is on substrings, not on equality: after `"AL80 EAN32"`, the distinct gas `"EAN32"` is skipped. |
| DiveView.GasSummaryMentionsEveryUsedGas | subsurface-core/subsurface-qt/DiveObjectHelper.cpp:94-107 | Every used cylinder with a non-empty gas text is mentioned in the summary. |
| DiveView.GasSummaryShape | subsurface-core/subsurface-qt/DiveObjectHelper.cpp:92-107 | The summary is the `" / "`-join of distinct, non-empty gas texts of used cylinders. It starts with its first entry, so no separator leads, and for n entries its length is their total plus (n - 1) separators. |
| DiveView.CollectGases | subsurface-core/subsurface-qt/DiveObjectHelper.cpp:92-107 | The loop over `gases` and `added` yields exactly the gas summary. Its invariant keeps `added` equal to the number of entries kept. |
| DiveView.CylinderTexts | subsurface-core/subsurface-qt/DiveObjectHelper.cpp:116-117 | The list has `MAX_CYLINDERS` entries, and entry i is the formatted text of cylinder slot i. |
| DiveView.WeightTexts | subsurface-core/subsurface-qt/DiveObjectHelper.cpp:119-120 | The list has `MAX_WEIGHTSYSTEMS` entries, and entry i is the formatted text of weight-system slot i. |
| DiveView.DiveObjectHelper.constructor | subsurface-core/subsurface-qt/DiveObjectHelper.cpp:36-126 | Every field is set. Null texts and empty temperatures read `"--"`. Empty notes give notes `"--"` and leave tags, gas, SAC, the two lists, date and time empty. Otherwise notes are the displayed notes, gas is the gas summary, and the lists have 8 and 6 entries, entry i being the formatted slot i. |
| DiveView.DiveObjectHelper.Weight | subsurface-core/subsurface-qt/DiveObjectHelper.cpp:221-226 | An index inside the list gives that entry. Any other index gives `"--"`. |
| DiveView.DiveObjectHelper.Cylinder | subsurface-core/subsurface-qt/DiveObjectHelper.cpp:238-243 | An index inside the list gives that entry. Any other index gives `"--"`. |
| DiveView.SingleCharString | subsurface-core/subsurface-qt/DiveObjectHelper.cpp:50-51 | As written, the CNS and OTU fields hold one UTF-16 code unit: the value modulo 2^16, for negative values too. |
| DiveView.SingleCharStringIsNeverDecimal | subsurface-core/subsurface-qt/DiveObjectHelper.cpp:50-51 | For no value is that one code unit the decimal text of the value. |
| Text.IntToStringRoundTrip | subsurface-core/subsurface-qt/DiveObjectHelper.cpp:50-51 | The decimal text of CNS and OTU reads back as the same integer. |
| Text.IntToStringLength | subsurface-core/subsurface-qt/DiveObjectHelper.cpp:50-51 | The decimal text is one character long only for 0 to 9, where it is that digit. It has no leading zero, and a negative value starts with `'-'`. |
| Text.NatToStringDigits | subsurface-core/subsurface-qt/DiveObjectHelper.cpp:50-51 | The decimal text of a natural number is a non-empty run of digits. It starts with `'0'` only for 0. |
| Text.NatToStringRoundTrip | subsurface-core/subsurface-qt/DiveObjectHelper.cpp:50-51 | The decimal text of a natural number reads back as that number. |
| Text.IndexOfFirstOccurrence | subsurface-core/subsurface-qt/DiveObjectHelper.cpp:100 | `indexOf` gives -1 exactly when the text does not occur. Otherwise it gives the first index where it occurs. |
| Text.JoinLength | subsurface-core/subsurface-qt/DiveObjectHelper.cpp:101-103 | A join of n entries holds the entries and n - 1 separators. |
| Text.JoinStartsWithFirst | subsurface-core/subsurface-qt/DiveObjectHelper.cpp:101-103 | A join starts with its first entry. |
| Text.JoinContainsEach | subsurface-core/subsurface-qt/DiveObjectHelper.cpp:103 | Every entry occurs in the join. |
| Text.ReplaceAllRemovesChar | subsurface-core/subsurface-qt/DiveObjectHelper.cpp:83 | Replacing `'\n'` by text without it leaves no `'\n'`. |
| Text.ReplaceAllWithoutChar | subsurface-core/subsurface-qt/DiveObjectHelper.cpp:83 | Text without `'\n'` is left as it is. |
| Text.ReplaceAllWithoutOccurrence | subsurface-core/subsurface-qt/DiveObjectHelper.cpp:83 | Text where the pattern does not occur is left as it is. |
| Text.ReplaceAllCharConcat | subsurface-core/subsurface-qt/DiveObjectHelper.cpp:83 | Replacing a one-character pattern distributes over concatenation. |
| Text.ReplaceAllAtChar | subsurface-core/subsurface-qt/DiveObjectHelper.cpp:83 | Text split at one occurrence of the character becomes the replaced part before it, the replacement, and the replaced part after it. |
| Text.LineBreaksRoundTrip | subsurface-core/subsurface-qt/DiveObjectHelper.cpp:83 | On notes without `'<'`, turning `<br>` back into line breaks recovers the original notes. |

## Left out

- The unit-formatting and lookup helpers are fields of `Formatters`, not definitions. Their code is in other files, which are not part of this model. This covers:
  - `get_weight_string`, `get_volume_string`, `get_pressure_string`, `get_gas_string` and `gasname`;
  - `is_cylinder_used`;
  - the duration, depth and temperature helpers;
  - `get_dive_location` and `taglist_get_tagstring`;
  - the dive-site lookup.
- The GPS text (`"%1,%2"` of two doubles) and the SAC text (`QString::number` on a double with a unit): both are floating-point formatting. Each is one helper result. The model keeps the branches around them: GPS only when a site exists, SAC only when the value is non-zero.
- Date and time: the conversion to local time and the user's date and time formats are library calls with locale behaviour. They are one helper each, applied to the timestamp.
- The `QTextDocument` HTML-to-text conversion of planner notes is an opaque helper. The marker replacements before and after it are modelled.
- `QObject::tr` translation of `"unknown"`, `"h:"` and `"min"` is not modelled. The label is the literal `"unknown"`.
- The 256-byte buffer of the tag text is not modelled: the tag helper returns the text directly.
- UTF-8 decoding (`fromUtf8`) is not modelled: strings are sequences of characters.
- The plain getters return a field each. They are the fields of the class.
- `MAX_CYLINDERS` (8) and `MAX_WEIGHTSYSTEMS` (6) come from the dive header, which is not part of this model.
- DiveView.DiveObjectHelper.constructor: the constructor computes in locals and writes each field once.
  - The early return on empty notes is an `if` whose `else` branch holds the rest of the body.
  - The gas loop and the two list fills are the methods `CollectGases`, `CylinderTexts` and `WeightTexts`, which it calls.
  - Apart from CNS and OTU (below) and the tag text's buffer cut, the final field values are the same as in the source. The order of the writes is not modelled.
- DiveView.DiveObjectHelper.constructor: the CNS and OTU fields hold the decimal text (`IntToString`). The source builds one character instead; see "## Findings".

## Findings

| source | as written | input that shows it | evidently intended | confidence | as-written member | corrected member |
|---|---|---|---|---|---|---|
| subsurface-core/subsurface-qt/DiveObjectHelper.cpp:50-51 | `m_maxcns(d->maxcns)` and `m_otu(d->otu)` build a `QString` from an `int`. That goes through `QChar(int)` and makes a one-character string holding that code unit. | `maxcns = 42` gives `"*"`, not `"42"` | The decimal text of the value, as `QString::number` gives it | medium (the class header is not part of this model), not executed | DiveView.SingleCharStringIsNeverDecimal | Text.IntToString, proved by Text.IntToStringRoundTrip |
