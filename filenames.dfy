/**
 * `sanitize_filename`: the volume file name is derived from the series name by
 * removing nine forbidden characters (backslash, slash, star, question mark,
 * colon, double quote, less-than, greater-than, bar), then stripping surrounding
 * whitespace, then replacing every space by `_`.
 */
module Filenames {
  import opened Text

  /** The regular-expression character class of the removal step. */
  predicate Forbidden(ch: char)
  {
    ch == '\\' || ch == '/' || ch == '*' || ch == '?' || ch == ':' || ch == '"' || ch == '<' || ch == '>' || ch == '|'
  }

  /** The `re.sub` removal step: keeps every other character, in order. */
  function RemoveForbidden(s: string): (r: string)
    ensures |r| <= |s|
    ensures forall i | 0 <= i < |r| :: !Forbidden(r[i])
    ensures (forall i | 0 <= i < |s| :: !Forbidden(s[i])) ==> r == s
    ensures |s| == 1 && Forbidden(s[0]) ==> r == []
  {
    if s == [] then []
    else if Forbidden(s[0]) then RemoveForbidden(s[1..])
    else [s[0]] + RemoveForbidden(s[1..])
  }

  /**
   * The removal works character by character: with the one-character cases of
   * `RemoveForbidden` (a forbidden character vanishes, any other stays), this
   * says that the allowed characters are kept, in order.
   */
  lemma {:induction false} RemoveForbiddenAppend(a: string, b: string)
    ensures RemoveForbidden(a + b) == RemoveForbidden(a) + RemoveForbidden(b)
  {
    if a == [] {
      assert a + b == b;
    } else {
      assert (a + b)[0] == a[0];
      assert (a + b)[1..] == a[1..] + b;
      RemoveForbiddenAppend(a[1..], b);
      if !Forbidden(a[0]) {
        assert [a[0]] + (RemoveForbidden(a[1..]) + RemoveForbidden(b)) == ([a[0]] + RemoveForbidden(a[1..])) + RemoveForbidden(b);
      }
    }
  }

  /** `s.replace(' ', '_')`. */
  function ReplaceSpaces(s: string): (r: string)
    ensures |r| == |s|
    ensures forall i | 0 <= i < |s| :: r[i] == (if s[i] == ' ' then '_' else s[i])
    ensures (forall i | 0 <= i < |s| :: s[i] != ' ') ==> r == s
  {
    if s == [] then [] else [if s[0] == ' ' then '_' else s[0]] + ReplaceSpaces(s[1..])
  }

  /** `sanitize_filename(name)`: remove, then strip, then replace. */
  function SanitizeFilename(name: string): string
  {
    ReplaceSpaces(Strip(RemoveForbidden(name)))
  }

  /**
   * A sanitized name holds no forbidden character and no space, does not start
   * or end with whitespace, and is no longer than the input.
   */
  lemma SanitizeFilenameClean(name: string)
    ensures |SanitizeFilename(name)| <= |name|
    ensures forall i | 0 <= i < |SanitizeFilename(name)| ::
      !Forbidden(SanitizeFilename(name)[i]) && SanitizeFilename(name)[i] != ' '
    ensures var r := SanitizeFilename(name); |r| == 0 || (!IsSpace(r[0]) && !IsSpace(r[|r| - 1]))
  {
    SanitizedChars(name);
    SanitizedEnds(name);
  }

  /** A sanitized name holds neither a forbidden character nor a space. */
  lemma SanitizedChars(name: string)
    ensures forall i | 0 <= i < |SanitizeFilename(name)| ::
      !Forbidden(SanitizeFilename(name)[i]) && SanitizeFilename(name)[i] != ' '
  {
    var f := RemoveForbidden(name);
    StripKeepsAllowed(f);
    ReplaceSpacesAllowed(Strip(f));
  }

  /** Replacing spaces in a string free of forbidden characters leaves neither those nor a space. */
  lemma ReplaceSpacesAllowed(t: string)
    requires forall i | 0 <= i < |t| :: !Forbidden(t[i])
    ensures forall i | 0 <= i < |ReplaceSpaces(t)| :: !Forbidden(ReplaceSpaces(t)[i]) && ReplaceSpaces(t)[i] != ' '
  {
  }

  /** A sanitized name neither starts nor ends with whitespace. */
  lemma SanitizedEnds(name: string)
    ensures var r := SanitizeFilename(name); |r| == 0 || (!IsSpace(r[0]) && !IsSpace(r[|r| - 1]))
  {
    var t := Strip(RemoveForbidden(name));
    ReplaceSpacesEnds(t);
    assert SanitizeFilename(name) == ReplaceSpaces(t);
  }

  /** Replacing spaces keeps a string free of whitespace at its ends. */
  lemma ReplaceSpacesEnds(t: string)
    requires |t| == 0 || (!IsSpace(t[0]) && !IsSpace(t[|t| - 1]))
    ensures var r := ReplaceSpaces(t); |r| == 0 || (!IsSpace(r[0]) && !IsSpace(r[|r| - 1]))
  {
    var r := ReplaceSpaces(t);
    if |t| > 0 {
      assert r[0] == t[0] && r[|r| - 1] == t[|t| - 1];
    }
  }

  /** Stripping a string free of forbidden characters leaves it free of them. */
  lemma StripKeepsAllowed(f: string)
    requires forall i | 0 <= i < |f| :: !Forbidden(f[i])
    ensures forall i | 0 <= i < |Strip(f)| :: !Forbidden(Strip(f)[i])
  {
  }

  /** A sanitized name is already clean: sanitizing it again changes nothing. */
  lemma SanitizeIdempotent(name: string)
    ensures SanitizeFilename(SanitizeFilename(name)) == SanitizeFilename(name)
  {
    var r := SanitizeFilename(name);
    SanitizeFilenameClean(name);
    assert RemoveForbidden(r) == r;
    StripUnchanged(r);
    assert ReplaceSpaces(r) == r;
  }
}
