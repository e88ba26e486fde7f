/**
 * The three Python string operations the name updater relies on, with Python's
 * semantics: the substring test `sub in s`, `s.replace(pat, rep)` and `s.strip()`.
 * Strings are sequences of Unicode scalar values.
 */
module Text {

  /** `sub` occurs in `s` starting at position `i`. */
  predicate OccursAt(s: string, sub: string, i: int)
  {
    0 <= i && i + |sub| <= |s| && s[i..i + |sub|] == sub
  }

  /** Python's `sub in s`: `sub` occurs somewhere in `s` (the empty string occurs everywhere). */
  predicate Contains(s: string, sub: string)
    decreases |s|
  {
    sub <= s || (s != [] && Contains(s[1..], sub))
  }

  /** `Contains` agrees with the positional definition of an occurrence, in both directions. */
  lemma {:induction false} ContainsIffOccurs(s: string, sub: string)
    ensures Contains(s, sub) <==> exists i :: OccursAt(s, sub, i)
    decreases |s|
  {
    if sub <= s {
      assert OccursAt(s, sub, 0);
    } else if s == [] {
    } else {
      ContainsIffOccurs(s[1..], sub);
      if exists i :: OccursAt(s, sub, i) {
        var i :| OccursAt(s, sub, i);
        assert i != 0;
        assert s[1..][i - 1..i - 1 + |sub|] == s[i..i + |sub|];
        assert OccursAt(s[1..], sub, i - 1);
      }
      if Contains(s[1..], sub) {
        var i :| OccursAt(s[1..], sub, i);
        assert s[1..][i..i + |sub|] == s[i + 1..i + 1 + |sub|];
        assert OccursAt(s, sub, i + 1);
      }
    }
  }

  /** An occurrence at a known position is enough to conclude `Contains`. */
  lemma ContainsAt(s: string, sub: string, i: nat)
    requires OccursAt(s, sub, i)
    ensures Contains(s, sub)
  {
    ContainsIffOccurs(s, sub);
  }

  /** A string that lacks the first character of `sub` cannot contain `sub`. */
  lemma {:induction false} NotContainsFirstChar(s: string, sub: string)
    requires sub != [] && sub[0] !in s
    ensures !Contains(s, sub)
    decreases |s|
  {
    if s != [] {
      assert s[0] != sub[0];
      NotContainsFirstChar(s[1..], sub);
    }
  }

  /**
   * Python's `s.replace(pat, rep)` for a non-empty pattern: scanning from the left,
   * every occurrence of `pat` that does not overlap an earlier replaced one is
   * replaced by `rep`, and the text produced is not scanned again.
   */
  function ReplaceAll(s: string, pat: string, rep: string): (r: string)
    requires pat != []
    ensures rep == [] ==> |r| <= |s|
    decreases |s|
  {
    if s == [] then []
    else if pat <= s then rep + ReplaceAll(s[|pat|..], pat, rep)
    else [s[0]] + ReplaceAll(s[1..], pat, rep)
  }

  /** A string without an occurrence of the pattern is left as it is. */
  lemma {:induction false} ReplaceAbsent(s: string, pat: string, rep: string)
    requires pat != [] && !Contains(s, pat)
    ensures ReplaceAll(s, pat, rep) == s
    decreases |s|
  {
    if s != [] {
      ReplaceAbsent(s[1..], pat, rep);
    }
  }

  /**
   * Deleting a single character removes every copy of it and keeps every other
   * character exactly as often as before.
   */
  lemma {:induction false} DeleteCharSpec(s: string, c: char)
    ensures c !in ReplaceAll(s, [c], [])
    ensures forall d :: d != c ==> multiset(ReplaceAll(s, [c], []))[d] == multiset(s)[d]
    decreases |s|
  {
    if s != [] {
      DeleteCharSpec(s[1..], c);
      assert s == [s[0]] + s[1..];
      if [c] <= s {
        assert s[1..] == s[|[c]|..];
      }
    }
  }

  /** A character found neither in `s` nor in the replacement is not in the result either. */
  lemma {:induction false} ReplaceAddsNoChar(s: string, pat: string, rep: string, c: char)
    requires pat != [] && c !in s && c !in rep
    ensures c !in ReplaceAll(s, pat, rep)
    decreases |s|
  {
    if s != [] {
      if pat <= s {
        assert s[|pat|..] == s[|pat|..|s|];
        ReplaceAddsNoChar(s[|pat|..], pat, rep, c);
      } else {
        assert s[0] in s;
        ReplaceAddsNoChar(s[1..], pat, rep, c);
      }
    }
  }

  /** Removing "Italic" from "Italictalic" leaves "talic". */
  lemma RemoveLeadingItalic()
    ensures ReplaceAll("Italictalic", "Italic", "") == "talic"
  {
    var s := "Italictalic";
    assert "Italic" <= s && s[|"Italic"|..] == "talic";
    NotContainsFirstChar("talic", "Italic");
    ReplaceAbsent("talic", "Italic", "");
  }

  /**
   * Replacing does not scan its own output again: removing "Italic" from
   * "IItalictalic" joins "I" and "talic" into a new "Italic", which stays.
   */
  lemma RemovalIsSinglePass()
    ensures Contains("IItalictalic", "Italic")
    ensures ReplaceAll("IItalictalic", "Italic", "") == "Italic"
  {
    var s := "IItalictalic";
    assert s[1..] == "Italictalic";
    assert OccursAt(s, "Italic", 1);
    ContainsAt(s, "Italic", 1);
    assert !("Italic" <= s) by { assert s[1] != "Italic"[1]; }
    RemoveLeadingItalic();
  }

  /** The characters Python's `str.isspace` accepts, which `str.strip()` removes. */
  const Whitespace: set<char> := {
    '\t', '\n', '\U{b}', '\U{c}', '\r', '\U{1c}', '\U{1d}', '\U{1e}', '\U{1f}', ' ', '\U{85}', '\U{a0}',
    '\U{1680}', '\U{2000}', '\U{2001}', '\U{2002}', '\U{2003}', '\U{2004}', '\U{2005}', '\U{2006}',
    '\U{2007}', '\U{2008}', '\U{2009}', '\U{200a}', '\U{2028}', '\U{2029}', '\U{202f}', '\U{205f}', '\U{3000}'
  }

  /** Python's `c.isspace()` for a single character. */
  predicate IsSpace(c: char)
  {
    c in Whitespace
  }

  /** `s` with its leading whitespace removed: a suffix of `s` that starts with a non-space. */
  function TrimStart(s: string): (r: string)
    ensures |r| <= |s| && r == s[|s| - |r|..]
    ensures r == [] || !IsSpace(r[0])
    ensures forall k {:trigger IsSpace(s[k])} :: 0 <= k < |s| - |r| ==> IsSpace(s[k])
    decreases |s|
  {
    if s != [] && IsSpace(s[0]) then TrimStart(s[1..]) else s
  }

  /** `s` with its trailing whitespace removed: a prefix of `s` that ends with a non-space. */
  function TrimEnd(s: string): (r: string)
    ensures |r| <= |s| && r == s[..|r|]
    ensures r == [] || !IsSpace(r[|r| - 1])
    ensures forall k {:trigger IsSpace(s[k])} :: |r| <= k < |s| ==> IsSpace(s[k])
    decreases |s|
  {
    if s != [] && IsSpace(s[|s| - 1]) then TrimEnd(s[..|s| - 1]) else s
  }

  /**
   * `r` is the slice of `s` that starts at `i`, everything in `s` before `i` and
   * after the slice is whitespace, and `r` neither starts nor ends with whitespace:
   * what Python's `s.strip()` returns.
   */
  predicate StrippedAt(s: string, r: string, i: int)
  {
    0 <= i && i + |r| <= |s| && r == s[i..i + |r|]
    && (forall k {:trigger IsSpace(s[k])} :: 0 <= k < i ==> IsSpace(s[k]))
    && (forall k {:trigger IsSpace(s[k])} :: i + |r| <= k < |s| ==> IsSpace(s[k]))
    && (r == [] || (!IsSpace(r[0]) && !IsSpace(r[|r| - 1])))
  }

  /** Python's `s.strip()`: the stripped slice starts after the leading whitespace. */
  function Strip(s: string): (r: string)
    ensures StrippedAt(s, r, |s| - |TrimStart(s)|)
  {
    var t := TrimStart(s);
    var r := TrimEnd(t);
    assert StrippedAt(s, r, |s| - |t|);
    r
  }

  /** Two slices with the properties of a stripped string start at the same place and agree. */
  lemma StrippedAtUnique(s: string, r: string, i: int, r': string, i': int)
    requires StrippedAt(s, r, i) && StrippedAt(s, r', i')
    ensures r == r'
  {
    assert r != [] ==> s[i] == r[0] && s[i + |r| - 1] == r[|r| - 1];
    assert r' != [] ==> s[i'] == r'[0] && s[i' + |r'| - 1] == r'[|r'| - 1];
  }

  /** Only one slice has the properties `Strip` promises, so they define it. */
  lemma StripUnique(s: string, r: string, i: int)
    requires StrippedAt(s, r, i)
    ensures Strip(s) == r
  {
    StrippedAtUnique(s, r, i, Strip(s), |s| - |TrimStart(s)|);
  }

  /** A string without surrounding whitespace strips to itself, also after one trailing space. */
  lemma StripTrailingSpace(s: string)
    requires s != [] && !IsSpace(s[0]) && !IsSpace(s[|s| - 1])
    ensures Strip(s) == s
    ensures Strip(s + " ") == s
  {
    assert StrippedAt(s, s, 0);
    StripUnique(s, s, 0);
    assert StrippedAt(s + " ", s, 0);
    StripUnique(s + " ", s, 0);
  }

  /** Stripping twice changes nothing more. */
  lemma StripIdempotent(s: string)
    ensures Strip(Strip(s)) == Strip(s)
  {
    var r := Strip(s);
    assert StrippedAt(r, r, 0);
    StripUnique(r, r, 0);
  }
}
