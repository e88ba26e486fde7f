/**
 * The name updater run on each variable font after its STAT table is built:
 * it derives the family's PostScript prefix, records it as name ID 25 and gives
 * every named instance of the `fvar` table a PostScript name of the form
 * `<prefix>-<style>`, registered under a name ID the allocator hands out.
 *
 * The `name` table is collapsed to one string per name ID. Every record the
 * updater reads with `getName` or sets with `setName` is a Windows Unicode
 * English record (platform 3, encoding 1, language 0x409), so the platform,
 * encoding and language are left implicit. The Macintosh record `_addName`
 * also adds is not modelled.
 */
module FvarNames {
  import opened Wrappers
  import opened Text

  /** Name ID of the legacy family name. */
  const FamilyNameID: int := 1
  /** Name ID of the typographic family name. */
  const TypographicFamilyNameID: int := 16
  /** Name ID of the variations PostScript name prefix. */
  const VariationsPSNamePrefixID: int := 25
  /** The lowest name ID the updater lets the name table hand out for an instance name. */
  const FirstFreeNameID: int := 256

  /** The path of the upright font the driver processes. */
  const UprightPath: string := "../fonts/variable/SofiaSans[wdth,wght].ttf"
  /** The path of the italic font the driver processes. */
  const ItalicPath: string := "../fonts/variable/SofiaSans-Italic[wdth,wght].ttf"

  /**
   * The family name the prefix is built from: the typographic family name when
   * that record exists, the legacy family name only when it does not, and None
   * when neither exists (the point where the script itself fails).
   */
  function FamilyName(records: map<int, string>): (r: Option<string>)
    ensures TypographicFamilyNameID in records ==> r == Some(records[TypographicFamilyNameID])
    ensures TypographicFamilyNameID !in records ==>
      r == if FamilyNameID in records then Some(records[FamilyNameID]) else None
  {
    if TypographicFamilyNameID in records then Some(records[TypographicFamilyNameID])
    else if FamilyNameID in records then Some(records[FamilyNameID])
    else None
  }

  /** The style part of the prefix, decided only by whether the font's file name contains "Italic". */
  function FontStyle(fileName: string): (r: string)
    ensures r == "Italic" <==> Contains(fileName, "Italic")
    ensures r == "Italic" || r == "Roman"
  {
    if Contains(fileName, "Italic") then "Italic" else "Roman"
  }

  /**
   * The variations PostScript name prefix: the family name with every space
   * deleted, followed by the font style.
   */
  function PsFamilyName(familyName: string, fileName: string): (r: string)
    ensures ' ' !in r
    ensures |r| >= |FontStyle(fileName)| && r[|r| - |FontStyle(fileName)|..] == FontStyle(fileName)
    ensures ' ' !in familyName ==> r == familyName + FontStyle(fileName)
  {
    var squeezed := ReplaceAll(familyName, " ", "");
    DeleteCharSpec(familyName, ' ');
    DeleteAbsentChar(familyName, ' ');
    squeezed + FontStyle(fileName)
  }

  /** Apart from the spaces, the prefix holds exactly the characters of the family name and the style. */
  lemma PsFamilyNameChars(familyName: string, fileName: string)
    ensures forall c :: c != ' ' ==>
      multiset(PsFamilyName(familyName, fileName))[c] == multiset(familyName)[c] + multiset(FontStyle(fileName))[c]
  {
    DeleteCharSpec(familyName, ' ');
  }

  /**
   * The style part of an instance's PostScript name: its subfamily name with
   * "Italic" removed and surrounding whitespace stripped, or "Regular" when
   * nothing is left. It is never empty and never starts or ends with whitespace.
   */
  function InstanceStyle(subfamily: string): (r: string)
    ensures r != []
    ensures !IsSpace(r[0]) && !IsSpace(r[|r| - 1])
  {
    var stripped := Strip(ReplaceAll(subfamily, "Italic", ""));
    if stripped == "" then "Regular" else stripped
  }

  /** The PostScript name of an instance: the prefix, a hyphen, and the instance style. */
  function InstancePsName(prefix: string, subfamily: string): (r: string)
    ensures |r| > |prefix| + 1
    ensures r[..|prefix| + 1] == prefix + "-"
  {
    prefix + "-" + InstanceStyle(subfamily)
  }

  /** The index of the first hyphen in `s`, if any. */
  function FirstHyphen(s: string): (r: Option<nat>)
    ensures r.Some? ==> r.value < |s| && s[r.value] == '-' && '-' !in s[..r.value]
    ensures r.None? ==> '-' !in s
  {
    if s == [] then None
    else if s[0] == '-' then Some(0)
    else match FirstHyphen(s[1..])
      case None => None
      case Some(k) => assert s[..k + 1] == [s[0]] + s[1..][..k]; Some(k + 1)
  }

  /** A hyphen with no hyphen before it is the one `FirstHyphen` finds. */
  lemma {:induction false} FirstHyphenAt(s: string, k: nat)
    requires k < |s| && s[k] == '-' && '-' !in s[..k]
    ensures FirstHyphen(s) == Some(k)
    decreases k
  {
    if k > 0 {
      assert s[0] in s[..k];
      assert s[1..][..k - 1] == s[..k][1..];
      FirstHyphenAt(s[1..], k - 1);
    }
  }

  /** Splits a PostScript instance name at its first hyphen into prefix and style. */
  function SplitPsName(name: string): (r: Option<(string, string)>)
    ensures r.Some? ==> r.value.0 + "-" + r.value.1 == name && '-' !in r.value.0
  {
    match FirstHyphen(name)
    case None => None
    case Some(k) => assert name == name[..k] + "-" + name[k + 1..]; Some((name[..k], name[k + 1..]))
  }

  /**
   * A prefix without hyphens, such as any family name without hyphens followed by
   * "Roman" or "Italic", can be read back from every instance name built on it,
   * together with the instance style.
   */
  lemma PsNameRoundTrip(prefix: string, subfamily: string)
    requires '-' !in prefix
    ensures SplitPsName(InstancePsName(prefix, subfamily)) == Some((prefix, InstanceStyle(subfamily)))
  {
    var name := InstancePsName(prefix, subfamily);
    assert name[|prefix|] == '-';
    assert name[..|prefix|] == prefix;
    FirstHyphenAt(name, |prefix|);
  }

  /**
   * When `t` starts with a character that `pat` does not contain, no occurrence
   * of `pat` can straddle `a` and `t`, so replacing in `a + t` treats `a` and `t`
   * separately if `a` holds no occurrence.
   */
  lemma {:induction false} ReplaceAllPrefixWithout(a: string, t: string, pat: string, rep: string)
    requires pat != [] && t != [] && t[0] !in pat
    requires !Contains(a, pat)
    ensures ReplaceAll(a + t, pat, rep) == a + ReplaceAll(t, pat, rep)
    decreases |a|
  {
    if a != [] {
      assert !(pat <= a) && !Contains(a[1..], pat);
      NoStraddle(a, t, pat);
      assert (a + t)[0] == a[0] && (a + t)[1..] == a[1..] + t;
      assert ReplaceAll(a + t, pat, rep) == [a[0]] + ReplaceAll(a[1..] + t, pat, rep);
      ReplaceAllPrefixWithout(a[1..], t, pat, rep);
      assert a == [a[0]] + a[1..];
    } else {
      assert a + t == t;
    }
  }

  /** An occurrence of `pat` at the start of `a + t` would have to lie within `a` or reach `t[0]`. */
  lemma NoStraddle(a: string, t: string, pat: string)
    requires pat != [] && t != [] && t[0] !in pat
    requires !(pat <= a)
    ensures !(pat <= a + t)
  {
    if |pat| <= |a| {
      assert (a + t)[..|pat|] == a[..|pat|];
    } else {
      assert (a + t)[|a|] == t[0];
      assert pat[|a|] in pat;
    }
  }

  /**
   * Subfamily names of the form `<style> Italic`, as the italic font uses them,
   * give `<style>`, and a plain `<style>` gives itself, provided the style is
   * non-empty, holds no "Italic" and has no surrounding whitespace.
   */
  lemma StyleOfItalicInstance(style: string)
    requires style != [] && !Contains(style, "Italic")
    requires !IsSpace(style[0]) && !IsSpace(style[|style| - 1])
    ensures InstanceStyle(style + " Italic") == style
    ensures InstanceStyle(style) == style
  {
    ItalicSuffixRemoved(style);
    StripTrailingSpace(style);
  }

  /** Removing "Italic" from `<style> Italic` leaves `<style> `, and leaves `<style>` alone. */
  lemma ItalicSuffixRemoved(style: string)
    requires !Contains(style, "Italic")
    ensures ReplaceAll(style + " Italic", "Italic", "") == style + " "
    ensures ReplaceAll(style, "Italic", "") == style
  {
    ReplaceAllPrefixWithout(style, " Italic", "Italic", "");
    assert ReplaceAll(" Italic", "Italic", "") == " " by {
      assert " Italic"[1..] == "Italic";
      assert "Italic"[|"Italic"|..] == [];
    }
    ReplaceAbsent(style, "Italic", "");
  }

  /** Deleting a character that does not occur changes nothing. */
  lemma DeleteAbsentChar(s: string, c: char)
    ensures c !in s ==> ReplaceAll(s, [c], []) == s
  {
    if c !in s {
      NotContainsFirstChar(s, [c]);
      ReplaceAbsent(s, [c], []);
    }
  }

  /** Deleting a single character distributes over concatenation. */
  lemma {:induction false} DeleteCharConcat(a: string, b: string, c: char)
    ensures ReplaceAll(a + b, [c], []) == ReplaceAll(a, [c], []) + ReplaceAll(b, [c], [])
    decreases |a|
  {
    if a != [] {
      DeleteCharConcat(a[1..], b, c);
      assert a + b == [a[0]] + (a[1..] + b);
      assert a == [a[0]] + a[1..];
      DeleteCharCons(a[0], a[1..] + b, c);
      DeleteCharCons(a[0], a[1..], c);
    } else {
      assert a + b == b;
    }
  }

  /** Deleting `c` from a string with first character `x` deletes `x` exactly when it is `c`. */
  lemma DeleteCharCons(x: char, s: string, c: char)
    ensures ReplaceAll([x] + s, [c], []) == (if x == c then [] else [x]) + ReplaceAll(s, [c], [])
  {
    var t := [x] + s;
    assert t[0] == x && t[1..] == s;
    assert [c] <= t <==> x == c;
  }

  /** The italic font's path contains "Italic", so its prefix ends in "Italic". */
  lemma ItalicPathStyle()
    ensures FontStyle(ItalicPath) == "Italic"
  {
    assert ItalicPath[28..34] == "Italic";
    ContainsAt(ItalicPath, "Italic", 28);
  }

  /** The upright font's path has no "I" at all, so its prefix ends in "Roman". */
  lemma UprightPathStyle()
    ensures FontStyle(UprightPath) == "Roman"
  {
    NotContainsFirstChar(UprightPath, "Italic");
  }

  /**
   * A two-word family name such as "Sofia Sans" is joined into one word before
   * the style, so the family gives "SofiaSansItalic" for the italic font's path
   * and "SofiaSansRoman" for the upright font's path.
   */
  lemma TwoWordFamilyPrefix(first: string, second: string, path: string)
    requires ' ' !in first && ' ' !in second
    ensures PsFamilyName(first + " " + second, path) == first + second + FontStyle(path)
  {
    assert ReplaceAll(first + " " + second, " ", "") == first + second by {
      assert first + " " + second == first + (" " + second);
      DeleteCharConcat(first, " " + second, ' ');
      DeleteAbsentChar(first, ' ');
      assert ReplaceAll(" " + second, " ", "") == second by {
        assert (" " + second)[1..] == second;
        DeleteAbsentChar(second, ' ');
      }
    }
  }

  /**
   * The family "Sofia Sans" gives the prefix "SofiaSansItalic" for the italic
   * font's path and "SofiaSansRoman" for the upright font's path.
   */
  lemma SofiaSansPrefixes()
    ensures PsFamilyName("Sofia" + " " + "Sans", ItalicPath) == "Sofia" + "Sans" + "Italic"
    ensures PsFamilyName("Sofia" + " " + "Sans", UprightPath) == "Sofia" + "Sans" + "Roman"
  {
    TwoWordFamilyPrefix("Sofia", "Sans", ItalicPath);
    TwoWordFamilyPrefix("Sofia", "Sans", UprightPath);
    ItalicPathStyle();
    UprightPathStyle();
  }

  /** The subfamily "Bold Italic" gives the style "Bold". */
  lemma BoldItalicStyle()
    ensures InstanceStyle("Bold" + " Italic") == "Bold"
  {
    NotContainsFirstChar("Bold", "Italic");
    StyleOfItalicInstance("Bold");
  }

  /** "Italic" alone strips to nothing and so gives "Regular". */
  lemma ItalicAloneStyle()
    ensures InstanceStyle("Italic") == "Regular"
  {
    assert "Italic" <= "Italic" && "Italic"[6..] == [];
    assert ReplaceAll("Italic", "Italic", "") == "";
    assert StrippedAt("", "", 0);
    StripUnique("", "", 0);
  }

  /**
   * A named instance of the `fvar` table, as far as the updater reads and writes
   * it: the name ID of its subfamily name, the name ID of its PostScript name and
   * its position in the design space.
   */
  datatype NamedInstance = NamedInstance(subfamilyNameID: int, postscriptNameID: int, coordinates: map<string, real>)

  /**
   * The smallest name ID that is at least `minNameID` and above every ID in use:
   * one more than the largest of `ids` and `minNameID - 1`.
   */
  method UnusedNameID(ids: set<int>, minNameID: int) returns (nameID: int)
    ensures nameID >= minNameID && nameID !in ids
    ensures forall k :: k in ids ==> k < nameID
    ensures nameID == minNameID || nameID - 1 in ids
  {
    nameID := minNameID;
    var rest := ids;
    while rest != {}
      invariant rest <= ids
      invariant nameID >= minNameID
      invariant forall k :: k in ids && k !in rest ==> k < nameID
      invariant nameID == minNameID || nameID - 1 in ids
      decreases |rest|
    {
      assert (forall k :: k !in rest) ==> rest == {};
      var k :| k in rest;
      if k >= nameID {
        nameID := k + 1;
      }
      rest := rest - {k};
    }
  }

  /** The `name` table: one string per name ID. */
  class NameTable {
    var records: map<int, string>

    constructor (records: map<int, string>)
      ensures this.records == records
    {
      this.records := records;
    }

    /** Sets the string of `nameID`, replacing the one it had. */
    method SetName(value: string, nameID: int)
      modifies this
      ensures records == old(records)[nameID := value]
    {
      records := records[nameID := value];
    }

    /**
     * Registers `value` under a new name ID, at least `minNameID` and one above
     * every ID already in use, and returns that ID.
     */
    method AddName(value: string, minNameID: int) returns (nameID: int)
      modifies this
      ensures nameID >= minNameID && nameID !in old(records)
      ensures forall k :: k in old(records) ==> k < nameID
      ensures nameID == minNameID || nameID - 1 in old(records)
      ensures records == old(records)[nameID := value]
    {
      nameID := UnusedNameID(records.Keys, minNameID);
      records := records[nameID := value];
    }
  }

  /** The `fvar` table: its named instances, whose name IDs the updater rewrites. */
  class Fvar {
    var instances: seq<NamedInstance>

    constructor (instances: seq<NamedInstance>)
      ensures this.instances == instances
    {
      this.instances := instances;
    }
  }

  /** An opened font: its `name` and `fvar` tables and the path it was read from. */
  class Font {
    const name: NameTable
    const fvar: Fvar
    const fileName: string

    constructor (name: NameTable, fvar: Fvar, fileName: string)
      ensures this.name == name && this.fvar == fvar && this.fileName == fileName
    {
      this.name := name;
      this.fvar := fvar;
      this.fileName := fileName;
    }
  }

  /** `nameID` is what the name table hands out first for an instance name when `base` is in use. */
  predicate FirstFreeAfter(base: map<int, string>, nameID: int)
  {
    nameID >= FirstFreeNameID
    && (forall k :: k in base ==> k < nameID)
    && (nameID == FirstFreeNameID || nameID - 1 in base)
  }

  /** The name IDs the first `n` instances of `instances` point to for their PostScript names. */
  function PostscriptIDs(instances: seq<NamedInstance>, n: nat): set<int>
    requires n <= |instances|
  {
    set i | 0 <= i < n :: instances[i].postscriptNameID
  }

  /** `after` is `before` with only the PostScript name IDs of the first `n` instances changed. */
  predicate OnlyIdsChanged(before: seq<NamedInstance>, after: seq<NamedInstance>, n: nat)
  {
    n <= |before| == |after|
    && (forall i :: n <= i < |before| ==> after[i] == before[i])
    && (forall i :: 0 <= i < n ==> after[i] == before[i].(postscriptNameID := after[i].postscriptNameID))
  }

  /**
   * The first `n` instances of `after` have consecutive PostScript name IDs, the
   * first of them the one the name table `base` leaves free.
   */
  predicate ConsecutiveIds(base: map<int, string>, after: seq<NamedInstance>, n: nat)
  {
    n <= |after|
    && (n > 0 ==> FirstFreeAfter(base, after[0].postscriptNameID))
    && (forall i :: 0 <= i < n ==> after[i].postscriptNameID == after[0].postscriptNameID + i)
  }

  /**
   * `records` is `base` with exactly the PostScript name IDs of the first `n`
   * instances of `after` added.
   */
  predicate TableExtended(base: map<int, string>, after: seq<NamedInstance>, records: map<int, string>, n: nat)
  {
    n <= |after|
    && records.Keys == base.Keys + PostscriptIDs(after, n)
    && (forall k :: k in base ==> records[k] == base[k])
  }

  /**
   * For each of the first `n` instances, `records` holds `<prefix>-<style>` under
   * its new PostScript name ID, built from its subfamily name as `base` records it.
   */
  predicate NamesRecorded(base: map<int, string>, prefix: string, before: seq<NamedInstance>,
                          after: seq<NamedInstance>, records: map<int, string>, n: nat)
  {
    n <= |before| && n <= |after|
    && (forall i :: 0 <= i < n ==>
          before[i].subfamilyNameID in base && after[i].postscriptNameID in records
          && records[after[i].postscriptNameID] == InstancePsName(prefix, base[before[i].subfamilyNameID]))
  }

  /**
   * The first `n` of the instances `before` have their PostScript names, starting
   * from the name table `base`: `after` differs from `before` only in the
   * PostScript name IDs of those instances; they received consecutive IDs, the
   * first of them the one `base` leaves free; each such ID holds
   * `<prefix>-<style>` for the instance's subfamily name as `base` records it;
   * and `records` is `base` with exactly those names added.
   */
  predicate NamedUpTo(base: map<int, string>, prefix: string, before: seq<NamedInstance>,
                      after: seq<NamedInstance>, records: map<int, string>, n: nat)
  {
    OnlyIdsChanged(before, after, n)
    && ConsecutiveIds(base, after, n)
    && TableExtended(base, after, records, n)
    && NamesRecorded(base, prefix, before, after, records, n)
  }

  /** The ID handed out after naming `n` instances is the next consecutive one. */
  lemma ConsecutiveIdsStep(base: map<int, string>, after: seq<NamedInstance>, records: map<int, string>,
                           n: nat, inst: NamedInstance, nameID: int)
    requires ConsecutiveIds(base, after, n) && TableExtended(base, after, records, n) && n < |after|
    requires nameID >= FirstFreeNameID && (forall k :: k in records ==> k < nameID)
    requires nameID == FirstFreeNameID || nameID - 1 in records
    ensures ConsecutiveIds(base, after[n := inst.(postscriptNameID := nameID)], n + 1)
  {
    var after' := after[n := inst.(postscriptNameID := nameID)];
    if n == 0 {
      assert records.Keys == base.Keys;
    } else {
      var first := after[0].postscriptNameID;
      assert after[n - 1].postscriptNameID == first + n - 1;
      assert first + n - 1 in records;
      assert nameID - 1 !in base;
      var j :| 0 <= j < n && after[j].postscriptNameID == nameID - 1;
      assert after[j].postscriptNameID == first + j;
    }
    assert forall i :: 0 <= i < n ==> after'[i] == after[i];
  }

  /** Adding the name under a new ID extends the table by exactly that ID. */
  lemma TableExtendedStep(base: map<int, string>, after: seq<NamedInstance>, records: map<int, string>,
                          n: nat, inst: NamedInstance, nameID: int, name: string)
    requires TableExtended(base, after, records, n) && n < |after| && nameID !in records
    ensures TableExtended(base, after[n := inst.(postscriptNameID := nameID)], records[nameID := name], n + 1)
  {
    var after' := after[n := inst.(postscriptNameID := nameID)];
    PostscriptIDsExtend(after, after', n);
    assert records[nameID := name].Keys == records.Keys + {nameID};
  }

  /** Taking one more instance adds exactly its PostScript name ID. */
  lemma PostscriptIDsExtend(s: seq<NamedInstance>, s': seq<NamedInstance>, n: nat)
    requires n <= |s| && n < |s'|
    requires forall i :: 0 <= i < n ==> s'[i] == s[i]
    ensures PostscriptIDs(s', n + 1) == PostscriptIDs(s, n) + {s'[n].postscriptNameID}
  {
    forall x | x in PostscriptIDs(s', n + 1)
      ensures x in PostscriptIDs(s, n) + {s'[n].postscriptNameID}
    {
      var i :| 0 <= i < n + 1 && s'[i].postscriptNameID == x;
      assert i < n ==> s[i].postscriptNameID == x;
    }
    forall x | x in PostscriptIDs(s, n)
      ensures x in PostscriptIDs(s', n + 1)
    {
      var i :| 0 <= i < n && s[i].postscriptNameID == x;
      assert s'[i].postscriptNameID == x;
    }
  }

  /**
   * Naming one more instance keeps `NamedUpTo`: the next instance gets the ID
   * the name table hands out after the names already added, which is the next
   * consecutive one, and the name built from its subfamily name.
   */
  lemma NamedUpToStep(base: map<int, string>, prefix: string, before: seq<NamedInstance>,
                      after: seq<NamedInstance>, records: map<int, string>, n: nat, nameID: int)
    requires NamedUpTo(base, prefix, before, after, records, n)
    requires n < |before| && before[n].subfamilyNameID in base
    requires nameID >= FirstFreeNameID && (forall k :: k in records ==> k < nameID)
    requires nameID == FirstFreeNameID || nameID - 1 in records
    ensures NamedUpTo(base, prefix, before, after[n := before[n].(postscriptNameID := nameID)],
                      records[nameID := InstancePsName(prefix, base[before[n].subfamilyNameID])], n + 1)
  {
    var name := InstancePsName(prefix, base[before[n].subfamilyNameID]);
    var after' := after[n := before[n].(postscriptNameID := nameID)];
    OnlyIdsChangedStep(before, after, n, nameID);
    ConsecutiveIdsStep(base, after, records, n, before[n], nameID);
    TableExtendedStep(base, after, records, n, before[n], nameID, name);
    NamesRecordedStep(base, prefix, before, after, records, n, nameID, name);
    assert NamedUpTo(base, prefix, before, after', records[nameID := name], n + 1);
  }

  /** Giving instance `n` a new PostScript name ID changes nothing else about the instances. */
  lemma OnlyIdsChangedStep(before: seq<NamedInstance>, after: seq<NamedInstance>, n: nat, nameID: int)
    requires OnlyIdsChanged(before, after, n) && n < |before|
    ensures OnlyIdsChanged(before, after[n := before[n].(postscriptNameID := nameID)], n + 1)
  {
  }

  /** The names recorded earlier stay, since the new ID is above all of them. */
  lemma NamesRecordedStep(base: map<int, string>, prefix: string, before: seq<NamedInstance>,
                          after: seq<NamedInstance>, records: map<int, string>, n: nat, nameID: int, name: string)
    requires NamesRecorded(base, prefix, before, after, records, n)
    requires n < |before| && n < |after| && before[n].subfamilyNameID in base
    requires forall k :: k in records ==> k < nameID
    requires name == InstancePsName(prefix, base[before[n].subfamilyNameID])
    ensures NamesRecorded(base, prefix, before, after[n := before[n].(postscriptNameID := nameID)],
                          records[nameID := name], n + 1)
  {
  }

  /**
   * One turn of the update's loop over the instances: looks up the subfamily
   * name of instance `i`, registers `<prefix>-<style>` under a new name ID of
   * at least 256 and points the instance's PostScript name ID at it.
   */
  method NameInstance(nametable: NameTable, fvar: Fvar, prefix: string, i: nat,
                      ghost base: map<int, string>, ghost before: seq<NamedInstance>)
    requires i < |before| && before[i].subfamilyNameID in base
    requires NamedUpTo(base, prefix, before, fvar.instances, nametable.records, i)
    modifies nametable, fvar
    ensures NamedUpTo(base, prefix, before, fvar.instances, nametable.records, i + 1)
  {
    var instance := fvar.instances[i];
    assert instance == before[i];
    var instanceStyle := nametable.records[instance.subfamilyNameID];
    var psName := InstancePsName(prefix, instanceStyle);
    ghost var records := nametable.records;
    var nameID := nametable.AddName(psName, FirstFreeNameID);
    NamedUpToStep(base, prefix, before, fvar.instances, records, i, nameID);
    fvar.instances := fvar.instances[i := instance.(postscriptNameID := nameID)];
  }

  /**
   * Gives the font's family its variations PostScript name prefix (name ID 25)
   * and every named instance a PostScript name `<prefix>-<style>` under a new
   * name ID of its own. The family name and every instance's subfamily name must
   * be in the name table; the subfamily names are read after name ID 25 is set.
   */
  method UpdateFvar(font: Font)
    requires FamilyName(font.name.records).Some?
    requires forall inst :: inst in font.fvar.instances ==>
      inst.subfamilyNameID in font.name.records || inst.subfamilyNameID == VariationsPSNamePrefixID
    modifies font.name, font.fvar
    ensures var prefix := PsFamilyName(FamilyName(old(font.name.records)).value, font.fileName);
      NamedUpTo(old(font.name.records)[VariationsPSNamePrefixID := prefix], prefix,
                old(font.fvar.instances), font.fvar.instances, font.name.records, |font.fvar.instances|)
  {
    var fvar := font.fvar;
    var nametable := font.name;
    var familyName := FamilyName(nametable.records).value;
    var psFamilyName := PsFamilyName(familyName, font.fileName);
    nametable.SetName(psFamilyName, VariationsPSNamePrefixID);
    ghost var base := nametable.records;
    ghost var before := fvar.instances;
    assert forall i :: 0 <= i < |before| ==> before[i].subfamilyNameID in base by {
      forall i | 0 <= i < |before|
        ensures before[i].subfamilyNameID in base
      {
        assert before[i] in old(font.fvar.instances);
      }
    }
    var i := 0;
    while i < |fvar.instances|
      invariant |fvar.instances| == |before|
      invariant forall j :: 0 <= j < |before| ==> before[j].subfamilyNameID in base
      invariant NamedUpTo(base, psFamilyName, before, fvar.instances, nametable.records, i)
    {
      NameInstance(nametable, fvar, psFamilyName, i, base, before);
      i := i + 1;
    }
    assert before == old(font.fvar.instances) && i == |fvar.instances|;
    assert base == old(font.name.records)[VariationsPSNamePrefixID := psFamilyName];
  }

  /**
   * Once every instance is named, their PostScript name IDs are at least 256,
   * new to the name table, and strictly increasing in instance order, so no two
   * instances share one.
   */
  lemma NewIdsFresh(base: map<int, string>, prefix: string, before: seq<NamedInstance>,
                    after: seq<NamedInstance>, records: map<int, string>)
    requires NamedUpTo(base, prefix, before, after, records, |before|)
    ensures forall i :: 0 <= i < |after| ==>
      after[i].postscriptNameID >= FirstFreeNameID && after[i].postscriptNameID !in base
    ensures forall i, j :: 0 <= i < j < |after| ==> after[i].postscriptNameID < after[j].postscriptNameID
  {
  }

  /**
   * With a prefix free of hyphens, every PostScript name the update adds splits
   * back into the prefix and the style derived from the instance's subfamily name.
   */
  lemma NewNamesReadBack(base: map<int, string>, prefix: string, before: seq<NamedInstance>,
                         after: seq<NamedInstance>, records: map<int, string>)
    requires NamedUpTo(base, prefix, before, after, records, |before|)
    requires '-' !in prefix
    ensures forall i :: 0 <= i < |after| ==>
      before[i].subfamilyNameID in base && after[i].postscriptNameID in records
      && SplitPsName(records[after[i].postscriptNameID]) == Some((prefix, InstanceStyle(base[before[i].subfamilyNameID])))
  {
    forall i | 0 <= i < |after|
      ensures before[i].subfamilyNameID in base && after[i].postscriptNameID in records
      ensures SplitPsName(records[after[i].postscriptNameID]) == Some((prefix, InstanceStyle(base[before[i].subfamilyNameID])))
    {
      PsNameRoundTrip(prefix, base[before[i].subfamilyNameID]);
    }
  }

  /** A family name without hyphens, such as "Sofia Sans", gives a prefix without hyphens. */
  lemma PrefixWithoutHyphen(familyName: string, fileName: string)
    requires '-' !in familyName
    ensures '-' !in PsFamilyName(familyName, fileName)
  {
    ReplaceAddsNoChar(familyName, " ", "", '-');
    assert '-' !in FontStyle(fileName);
  }
}
