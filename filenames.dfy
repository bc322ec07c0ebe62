/** File-name helpers of gpt_ui: appending an extension and making a chat
    name safe for common file systems and the Obsidian sync plugin. */
module FileNames {
  import opened Strings

  /** `ensure_extension` on strings: the result ends with `ext`; an input
      that already does is returned unchanged, any other gets `ext` appended. */
  function EnsureExtension(s: string, ext: string): (r: string)
    ensures EndsWith(r, ext)
    ensures EndsWith(s, ext) ==> r == s
    ensures !EndsWith(s, ext) ==> r == s + ext
  {
    if EndsWith(s, ext) then s
    else
      assert (s + ext)[|s|..] == ext;
      s + ext
  }

  lemma EnsureExtensionIdempotent(s: string, ext: string)
    ensures EnsureExtension(EnsureExtension(s, ext), ext) == EnsureExtension(s, ext)
  {
  }

  /** The characters `[<>"/\|?*]+` deletes; in that pattern `\|` is an
      escaped pipe, so the backslash itself is kept. */
  const Forbidden: set<char> := {'<', '>', '"', '/', '|', '?', '*'}

  /** `sanetize_filename`: every colon becomes " - ", the forbidden
      characters are deleted, and the result is stripped. The pattern `\.^`
      (a dot followed by a start-of-string anchor) can never match, so that
      substitution leaves the name as it was and is not written out. */
  function SanitizeFilename(filename: string): (r: string)
    ensures ':' !in r
    ensures forall c :: c in Forbidden ==> c !in r
    ensures Stripped(r)
    ensures |r| <= 3 * |filename|
  {
    var dashed := ReplaceAll(filename, ":", " - ");
    DashedLength(filename);
    assert ':' !in dashed;
    var cleaned := DeleteChars(dashed, Forbidden);
    DeleteCharsMembers(dashed, Forbidden);
    assert ':' !in cleaned && |cleaned| <= 3 * |filename|;
    var r := Strip(cleaned);
    assert forall c :: c in r ==> c in cleaned;
    r
  }

  /** Each colon grows into three characters, so the name at most triples. */
  lemma {:induction false} DashedLength(s: string)
    ensures |ReplaceAll(s, ":", " - ")| <= 3 * |s|
    decreases |s|
  {
    if |s| >= 1 {
      DashedLength(s[1..]);
    }
  }

  /** A sanitised name is left alone by a second pass. */
  lemma SanitizeIdempotent(filename: string)
    ensures SanitizeFilename(SanitizeFilename(filename)) == SanitizeFilename(filename)
  {
    var r := SanitizeFilename(filename);
    ContainsChar(r, ":");
    assert ReplaceAll(r, ":", " - ") == r;
    forall i | 0 <= i < |r| ensures r[i] !in Forbidden {
      assert r[i] in r;
    }
    assert DeleteChars(r, Forbidden) == r;
  }
}
