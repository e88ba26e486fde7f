# Sofia Sans STAT tables and fvar PostScript names

Sofia Sans ships as two variable fonts: an upright one (axes `wdth`, `wght`) and an italic
one. A post-processing script, `sources/sofia_stat_table.py`, does two things to each font.

1. It carries two tables, `UPRIGHT_AXES` and `ITALIC_AXES`. They describe the font's STAT
   (style attributes) axes:
   - the Width stops: UltraCondensed 50, Condensed 75, SemiCondensed 87.5, Normal 100;
   - the eleven Weight stops, Hairline through ExtraBlack, each with a nominal value and a
     `[rangeMin, rangeMax]` range;
   - the one Italic stop (Roman 0 or Italic 1).

   The elidable "default" flag marks Normal, Regular and Roman.
2. `update_fvar` derives PostScript names for the font's named instances (its fvar table).
   - The family prefix is the typographic family name (or the family name), with every space
     removed, followed by `Italic` or `Roman`. Which one depends on whether the font's file
     path contains "Italic".
   - The prefix is stored as name ID 25.
   - For each instance, the subfamily name has every "Italic" deleted, then surrounding
     whitespace stripped. An empty result becomes "Regular".
   - `<prefix>-<style>` is added to the name table with `_addName` under a name ID of at
     least 256. The instance's `postscriptNameID` is set to that ID.
   - Under the allocator as modelled, that ID is always fresh. The library may instead reuse an
     existing ID; see "## Left out".

The model has four modules.

- `Wrappers`: the `Option` type.
- `Text`: the Python string operations the script relies on.
  - `in` is `Contains`, with a positional characterisation.
  - `str.replace` is `ReplaceAll`: left to right, non-overlapping, never rescanning what it
    produced.
  - `str.strip()` is `Strip`, over Python's whitespace characters.
- `StatAxes`: the two tables as Dafny values.
  - `WellFormed` states the shape these two tables share. It is not STAT validity in general:
    - tags wdth, wght and ital, with ordering equal to position;
    - four width stops increasing from 50 to 100;
    - eleven weight ranges, each holding its nominal value, with nominal values increasing
      from 1 to 1000;
    - one italic stop;
    - at most one elidable entry per axis.

    Further predicates say when weight ranges are contiguous and when they do not overlap.
  - Lemmas prove these of the tables, or exhibit where they fail.
- `FvarNames`: the naming itself, in the script's imperative form.
  - `NameTable`, `Fvar` and `Font` are classes.
  - `NameTable.SetName` and `NameTable.AddName` update the records in place.
  - `UpdateFvar` loops over the instances and rewrites each instance's `postscriptNameID`.
  - `UpdateFvar`'s postcondition, `NamedUpTo`, describes the complete new state: the
    instances, the IDs they received, and the name table.
  - Lemmas derive from that state, under the allocator as modelled, that the IDs are fresh,
    distinct and increasing. They also derive that every new name splits back into the family
    prefix and the instance style.

The constants reproduce the source entry by entry. An absent `flags` key is 0, and every
other absent key is `None`.

- `StatAxes.WidthValues` reproduces lines 27-30 and 66-69.
- `StatAxes.UprightWeightValues` reproduces lines 38-48.
- `StatAxes.ItalicWeightValues` reproduces lines 77-87, Medium's 650 included.
- `StatAxes.RomanValues` reproduces line 56, and `StatAxes.ItalicValues` line 94.
- `StatAxes.UprightAxes` and `StatAxes.ItalicAxes` reproduce the tag, name and ordering of
  each axis at lines 21-58 and 60-96.
- `FvarNames.UprightPath` and `FvarNames.ItalicPath` are the two font paths of lines 98-100.
- `Text.Whitespace` lists the characters for which Python's `str.isspace` is true.

The Regular weight entry (lines 42 and 81) gives both a range and `linkedValue=700`. No single
OpenType STAT axis value format holds both (`StatAxes.RegularLinksToBold`). So the link from
Regular to Bold may never reach the font, depending on which fields the STAT builder keeps.

The name table is keyed by name ID alone. Every record the script reads with `getName` or
sets with `setName` is a Windows/Unicode BMP/English (US) record: platform 3, encoding 1,
language 1033. `_addName` also adds a Macintosh record, which is not modelled (see
"## Left out").

## Model

| member | source | states |
|---|---|---|
| Text.Contains | sources/sofia_stat_table.py:108 | Python's `sub in s`, defined by recursion on `s`; its meaning is stated by `Text.ContainsIffOccurs` |
| Text.IsSpace | sources/sofia_stat_table.py:113 | Python's `str.isspace` on one character: membership in `Text.Whitespace` |
| Text.ContainsIffOccurs | sources/sofia_stat_table.py:108 | Python's substring test holds exactly when the pattern occurs at some position (both directions) |
| Text.NotContainsFirstChar | sources/sofia_stat_table.py:108 | a string lacking the pattern's first character does not contain the pattern |
| Text.ContainsAt | sources/sofia_stat_table.py:108 | an occurrence at a known position makes the substring test true |
| Text.ReplaceAll | sources/sofia_stat_table.py:109 | replacing a pattern by the empty string never lengthens the string |
| Text.ReplaceAbsent | sources/sofia_stat_table.py:113 | `replace` leaves a string without the pattern unchanged |
| Text.DeleteCharSpec | sources/sofia_stat_table.py:109 | deleting a character removes every occurrence of it and keeps the count of every other character |
| Text.ReplaceAddsNoChar | sources/sofia_stat_table.py:109 | `replace` introduces no character found in neither the input nor the replacement |
| Text.RemoveLeadingItalic | sources/sofia_stat_table.py:113 | deleting "Italic" from "Italictalic" leaves "talic" |
| Text.RemovalIsSinglePass | sources/sofia_stat_table.py:113 | deletion is one pass: "IItalictalic" contains "Italic" and still reads "Italic" after it |
| Text.TrimStart | sources/sofia_stat_table.py:113 | the result is a suffix of the input that does not start with whitespace, and only whitespace was dropped |
| Text.TrimEnd | sources/sofia_stat_table.py:113 | the result is a prefix of the input that does not end with whitespace, and only whitespace was dropped |
| Text.Strip | sources/sofia_stat_table.py:113 | the result is the input's slice after its leading whitespace: only whitespace lies outside it, and it is empty or starts and ends with non-whitespace |
| Text.StrippedAtUnique | sources/sofia_stat_table.py:113 | at most one string satisfies the definition of a stripped string |
| Text.StripUnique | sources/sofia_stat_table.py:113 | any string satisfying that definition is what `strip` returns |
| Text.StripTrailingSpace | sources/sofia_stat_table.py:113 | `strip` leaves a string with non-space ends unchanged and removes one trailing space |
| Text.StripIdempotent | sources/sofia_stat_table.py:113 | stripping twice is stripping once |
| StatAxes.Format | sources/sofia_stat_table.py:27-56 | which OpenType STAT axis value format (1 point, 2 range, 3 linked) an entry's field set fits; `None` exactly when it fits none |
| StatAxes.ElidableCount | sources/sofia_stat_table.py:30 | the number of entries with flag 0x2 is at most the number of entries; its meaning is stated by the two lemmas below |
| StatAxes.ElidableCountZero | sources/sofia_stat_table.py:26-56 | the count is zero exactly when no entry has flag 0x2 |
| StatAxes.ElidableCountAtMostOne | sources/sofia_stat_table.py:26-56 | the count is at most one exactly when no two different entries have flag 0x2 |
| StatAxes.IncreasingPointsPairwise | sources/sofia_stat_table.py:27-30 | consecutively increasing point stops are increasing between any two positions |
| StatAxes.IncreasingRangesPairwise | sources/sofia_stat_table.py:38-48 | consecutively increasing nominal values are increasing between any two positions |
| StatAxes.ContiguousChain | sources/sofia_stat_table.py:38-48 | in contiguous ranges, an earlier range ends no later than any later range starts |
| StatAxes.ContiguousNoOverlap | sources/sofia_stat_table.py:38-48 | contiguous increasing ranges never share an interior point |
| StatAxes.ContiguousCover | sources/sofia_stat_table.py:38-48 | every weight between the first range's minimum and the last range's maximum lies in some range |
| StatAxes.WidthStopsIncrease | sources/sofia_stat_table.py:27-30 | the width stops are point entries with increasing values, and Normal is the only elidable one |
| StatAxes.UprightWeightRangesHoldNominals | sources/sofia_stat_table.py:38-48 | every upright weight range contains its nominal value |
| StatAxes.UprightWeightNominalsIncrease | sources/sofia_stat_table.py:38-48 | the upright nominal weights increase |
| StatAxes.UprightWeightStopsIncrease | sources/sofia_stat_table.py:38-48 | the upright weight stops are ranged entries in increasing order |
| StatAxes.UprightWeightElidableIsRegular | sources/sofia_stat_table.py:42 | Regular is the only elidable upright weight |
| StatAxes.UprightWeightStopsOk | sources/sofia_stat_table.py:38-48 | the upright weight stops satisfy the per-axis weight conditions |
| StatAxes.UprightWeightRangesContiguous | sources/sofia_stat_table.py:38-48 | each upright weight range starts where the previous one ends |
| StatAxes.ItalicWeightRangesHoldNominals | sources/sofia_stat_table.py:77-87 | every italic weight range contains its nominal value |
| StatAxes.ItalicWeightNominalsIncrease | sources/sofia_stat_table.py:77-87 | the italic nominal weights increase |
| StatAxes.ItalicWeightStopsIncrease | sources/sofia_stat_table.py:77-87 | the italic weight stops are ranged entries in increasing order |
| StatAxes.ItalicWeightElidableIsRegular | sources/sofia_stat_table.py:81 | Regular is the only elidable italic weight |
| StatAxes.ItalicWeightStopsOk | sources/sofia_stat_table.py:77-87 | the italic weight stops satisfy the per-axis weight conditions |
| StatAxes.TableHeaders | sources/sofia_stat_table.py:21-96 | both tables list wdth, wght, ital with orderings 0, 1, 2, and their Italic axis has a single stop |
| StatAxes.UprightAxesWellFormed | sources/sofia_stat_table.py:21-58 | the upright table satisfies every well-formedness condition |
| StatAxes.UprightWeightRangesTile | sources/sofia_stat_table.py:38-48 | the upright weight ranges are contiguous and never overlap |
| StatAxes.ItalicAxesWellFormed | sources/sofia_stat_table.py:60-96 | the italic table satisfies the same conditions, which do not require contiguity |
| StatAxes.ItalicWeightRangesOverlap | sources/sofia_stat_table.py:82-83 | as written, italic Medium and SemiBold both contain weight 600, so the ranges are neither contiguous nor disjoint |
| StatAxes.CorrectedWeightIsUpright | sources/sofia_stat_table.py:43 | with Medium ending at 550, the italic weight axis equals the upright one |
| StatAxes.CorrectedItalicAxesContiguous | sources/sofia_stat_table.py:82 | the corrected italic table is well formed and its weight ranges tile without overlap |
| StatAxes.WellFormedStopsOrdered | sources/sofia_stat_table.py:21-96 | in any well-formed table, width values and nominal weights are strictly ordered between any two positions |
| StatAxes.CorrectionIsMediumOnly | sources/sofia_stat_table.py:82 | the correction changes only the Medium entry's range maximum |
| StatAxes.TablesAgree | sources/sofia_stat_table.py:21-96 | the two tables share the width axis and every weight entry except Medium (550 against 650), and differ on the italic axis |
| StatAxes.RegularLinksToBold | sources/sofia_stat_table.py:42 | Regular links to Bold (700) in both tables; that entry alone fits no single STAT format, and every other entry fits one |
| StatAxes.ElidableEntriesAreDefaults | sources/sofia_stat_table.py:21-96 | an entry is elidable exactly when it is Normal width or Regular weight, or, in the upright table only, Roman (value 0, linked to 1); the italic table's Italic stop has value 1 |
| FvarNames.FamilyName | sources/sofia_stat_table.py:106 | the typographic family name (ID 16) when present, else the family name (ID 1), else nothing |
| FvarNames.FontStyle | sources/sofia_stat_table.py:108 | "Italic" exactly when the file name contains "Italic", otherwise "Roman" |
| FvarNames.PsFamilyName | sources/sofia_stat_table.py:109 | the prefix has no space and ends with the font style; a family name without spaces is kept whole |
| FvarNames.PsFamilyNameChars | sources/sofia_stat_table.py:109 | the prefix keeps every non-space character of the family name and font style, with its count |
| FvarNames.TwoWordFamilyPrefix | sources/sofia_stat_table.py:109 | a two-word family name is joined without its space, then followed by the style |
| FvarNames.SofiaSansPrefixes | sources/sofia_stat_table.py:99-109 | "Sofia Sans" gives prefix "SofiaSansItalic" for the italic font file and "SofiaSansRoman" for the upright one |
| FvarNames.ItalicPathStyle | sources/sofia_stat_table.py:100 | the italic font file's path selects "Italic" |
| FvarNames.UprightPathStyle | sources/sofia_stat_table.py:99 | the upright font file's path selects "Roman" |
| FvarNames.PrefixWithoutHyphen | sources/sofia_stat_table.py:109 | a family name without a hyphen gives a prefix without a hyphen |
| FvarNames.InstanceStyle | sources/sofia_stat_table.py:113-115 | the instance style is never empty and neither starts nor ends with whitespace |
| FvarNames.StyleOfItalicInstance | sources/sofia_stat_table.py:113-115 | a style followed by " Italic", and the style alone, both give back the style |
| FvarNames.ItalicSuffixRemoved | sources/sofia_stat_table.py:113 | deleting "Italic" from "<style> Italic" leaves "<style> " |
| FvarNames.BoldItalicStyle | sources/sofia_stat_table.py:113-115 | subfamily "Bold Italic" gives style "Bold" |
| FvarNames.ItalicAloneStyle | sources/sofia_stat_table.py:113-115 | subfamily "Italic" gives style "Regular" |
| FvarNames.InstancePsName | sources/sofia_stat_table.py:116 | the instance name starts with the prefix and a hyphen, and is followed by a non-empty style |
| FvarNames.FirstHyphen | sources/sofia_stat_table.py:116 | finds the first hyphen: one at that position and none before it; none at all when absent |
| FvarNames.FirstHyphenAt | sources/sofia_stat_table.py:116 | a hyphen with no hyphen before it is the one the search finds |
| FvarNames.SplitPsName | sources/sofia_stat_table.py:116 | a split rejoins to the name with a hyphen, and its first part has no hyphen |
| FvarNames.PsNameRoundTrip | sources/sofia_stat_table.py:116 | for a prefix without a hyphen, splitting an instance name gives back the prefix and the instance style |
| FvarNames.ReplaceAllPrefixWithout | sources/sofia_stat_table.py:113 | a leading part without the pattern passes through `replace` unchanged when no match can straddle the boundary |
| FvarNames.NoStraddle | sources/sofia_stat_table.py:113 | no pattern match starts in the leading part and runs into a suffix whose first character is not in the pattern |
| FvarNames.DeleteAbsentChar | sources/sofia_stat_table.py:109 | deleting an absent character changes nothing |
| FvarNames.DeleteCharConcat | sources/sofia_stat_table.py:109 | deleting a character distributes over concatenation |
| FvarNames.DeleteCharCons | sources/sofia_stat_table.py:109 | deleting a character from a string with a known first character, step by step |
| FvarNames.UnusedNameID | sources/sofia_stat_table.py:117 | the new ID is at least the minimum and above every ID in use; it is the minimum or the largest ID in use plus one |
| FvarNames.NameTable.SetName | sources/sofia_stat_table.py:110 | the record under the ID is set and nothing else changes |
| FvarNames.NameTable.AddName | sources/sofia_stat_table.py:117 | the name is stored under an unused ID (at least the minimum, above every ID in use); nothing else changes |
| FvarNames.ConsecutiveIdsStep | sources/sofia_stat_table.py:111-117 | one more instance keeps the IDs handed out consecutive |
| FvarNames.TableExtendedStep | sources/sofia_stat_table.py:111-117 | one more instance adds exactly its new ID to the name table |
| FvarNames.PostscriptIDsExtend | sources/sofia_stat_table.py:111-117 | the set of IDs handed out grows by the one just given |
| FvarNames.OnlyIdsChangedStep | sources/sofia_stat_table.py:117 | rewriting one instance's PostScript name ID leaves every other field and instance alone |
| FvarNames.NamesRecordedStep | sources/sofia_stat_table.py:112-117 | the new instance's PostScript name is recorded under its new ID, and earlier ones are kept |
| FvarNames.NamedUpToStep | sources/sofia_stat_table.py:111-117 | naming one more instance extends the loop invariant by one instance |
| FvarNames.NameInstance | sources/sofia_stat_table.py:112-117 | one iteration of the loop: the invariant that holds for the first `i` instances holds for the first `i + 1` |
| FvarNames.UpdateFvar | sources/sofia_stat_table.py:103-117 | name ID 25 holds the family prefix. Each instance, in order, gets the next free ID (the first is 256 or one above the largest ID in use), which holds `<prefix>-<style>`. No other field or record changes |
| FvarNames.NewIdsFresh | sources/sofia_stat_table.py:117 | under the allocator as modelled (the library may reuse an existing ID), after the update every instance's PostScript name ID is at least 256, was not in use before, and the IDs increase strictly in instance order |
| FvarNames.NewNamesReadBack | sources/sofia_stat_table.py:112-117 | after the update, each instance's PostScript name splits back into the family prefix and that instance's style |

## Left out

- Opening and saving fonts (`TTFont`, `save`), the command-line `main` and its output are not modelled.
  - The font's file path is a parameter (`Font.fileName`).
  - The two paths the script uses are constants.
- `buildStatTable` and the binary STAT table are not modelled.
  - The tables are modelled as data, and `StatAxes.Format` only says which format an entry's field set fits.
  - How the builder encodes the Regular weight entry, which has both a range and a linked value, is not modelled.
- Records are keyed by name ID alone. The platform, encoding and language triple is collapsed.
  - The records read with `getName` and set with `setName` are all 3, 1, 1033.
  - The Macintosh records that `_addName` also adds are not modelled.
- `toUnicode` decoding is not modelled: names are already strings.
- Whitespace covers only Python's whitespace characters. Unicode normalisation is not modelled.
- FvarNames.NameTable.AddName: it never reuses an existing record with the same string, and it does not model the library's upper limit on name IDs (32767).
  - The library returns the existing ID when a record with the same string already sits at ID 256 or above. That happens on a second run over the same font, or when two instances get the same style.
  - `FvarNames.NewIdsFresh` (fresh, strictly increasing IDs) holds for the allocator as modelled and depends on this simplification.
  - `_addName` also writes Macintosh-platform records. They are not modelled.
- FvarNames.UpdateFvar: requires the family name and each instance's subfamily name to be present, because the script fails with an error on a missing record.
  - A subfamily ID that only an earlier iteration creates is not considered.
- Instances are values held in a sequence, so aliasing between instance objects is not modelled. Coordinates are carried but unused.
- The width value 87.5 is a `real`. Binary fixed-point encoding is not modelled.
- `flags` is a 16-bit vector, and `StatAxes.Elidable` tests bit 0x2. Other flag bits are carried but nothing states anything about them.

## Findings

| source | as written | input that shows it | evidently intended | confidence | as-written member | corrected member |
|---|---|---|---|---|---|---|
| sources/sofia_stat_table.py:82 | italic Medium weight range is 450–650 | weight 600 lies in both Medium (450–650) and SemiBold (550–650) | rangeMaxValue 550, as in the upright table (line 43) | not executed | StatAxes.ItalicWeightRangesOverlap | StatAxes.CorrectedItalicAxesContiguous |
