/**
 * `sanitize_filename` from youtube_downloader.py: the video title becomes a file name by
 * replacing the characters file systems reject, normalising Unicode to NFKD
 * (Unicode Standard Annex #15, Normalization Form KD), dropping everything outside ASCII,
 * capping the length at 100 while keeping the extension, and falling back to
 * "youtube_audio" when nothing is left.
 *
 * NFKD itself is not defined here: it is the parameter `nfkd`, and a lemma that needs
 * a property of it says so in its `requires`.
 */
module Sanitize {
  import opened PyCore

  /** The length cap of line 38. */
  const MaxLength: nat := 100

  /** The name used when sanitising leaves nothing (line 49). */
  const Fallback: string := "youtube_audio"

  // The characters of the regular-expression class on line 23: backslash, slash, star,
  // question mark, colon, double quote, the two angle brackets and the bar.
  predicate InPattern(c: char)
  {
    c in "\\/*?:\"<>|"
  }

  /** Every character the three replacement passes turn into `_`: the class, the apostrophe and the space. */
  predicate IsForbidden(c: char)
  {
    InPattern(c) || c == '\'' || c == ' '
  }

  /** `ord(c) < 128`. */
  predicate IsAscii(c: char)
  {
    (c as int) < 128
  }

  predicate AllAscii(s: string)
  {
    forall i :: 0 <= i < |s| ==> IsAscii(s[i])
  }

  predicate NoneForbidden(s: string)
  {
    forall i :: 0 <= i < |s| ==> !IsForbidden(s[i])
  }

  /**
   * What the normalisation is required to do on ASCII: nothing. This holds of NFKD, since
   * every ASCII character is its own decomposition and never reorders.
   */
  ghost predicate FixesAscii(nfkd: string -> string)
  {
    forall s :: AllAscii(s) ==> nfkd(s) == s
  }

  /**
   * One whole-string pass that replaces every character `hit` selects by `_`, as `re.sub`
   * with a one-character class and `str.replace` with a one-character needle both do.
   */
  function ReplaceEach(s: string, hit: char -> bool): (r: string)
    ensures |r| == |s|
    ensures forall i :: 0 <= i < |s| ==> r[i] == if hit(s[i]) then '_' else s[i]
  {
    seq(|s|, i requires 0 <= i < |s| => if hit(s[i]) then '_' else s[i])
  }

  /**
   * Lines 23-29: the regular-expression pass, then the apostrophe pass, then the space pass.
   * Together they replace each forbidden character by `_` one for one and touch nothing else.
   */
  function ReplaceForbidden(s: string): (r: string)
    ensures |r| == |s|
    ensures NoneForbidden(r)
    ensures forall i :: 0 <= i < |s| ==> r[i] == if IsForbidden(s[i]) then '_' else s[i]
    ensures AllAscii(s) ==> AllAscii(r)
  {
    var afterPattern := ReplaceEach(s, InPattern);
    var afterApostrophe := ReplaceEach(afterPattern, c => c == '\'');
    ReplaceEach(afterApostrophe, c => c == ' ')
  }

  /** Line 35: `''.join(c for c in s if ord(c) < 128)`, which keeps every ASCII character and only those. */
  function AsciiOnly(s: string): (r: string)
    ensures AllAscii(r)
    ensures |r| <= |s|
    ensures AllAscii(s) ==> r == s
    ensures NoneForbidden(s) ==> NoneForbidden(r)
    decreases |s|
  {
    if s == [] then []
    else
      assert s == [s[0]] + s[1..];
      (if IsAscii(s[0]) then [s[0]] else []) + AsciiOnly(s[1..])
  }

  /** Filtering keeps exactly the ASCII characters, each as many times as the input holds it. */
  lemma {:induction false} AsciiOnlyCounts(s: string)
    ensures forall c :: multiset(AsciiOnly(s))[c] == if IsAscii(c) then multiset(s)[c] else 0
    decreases |s|
  {
    if s != [] {
      AsciiOnlyCounts(s[1..]);
      assert s == [s[0]] + s[1..];
      AsciiOnlyCons(s[0], s[1..]);
    }
  }

  /** Filtering keeps the order of the characters: filtering a concatenation filters each part. */
  lemma {:induction false} AsciiOnlyAppend(a: string, b: string)
    ensures AsciiOnly(a + b) == AsciiOnly(a) + AsciiOnly(b)
    decreases |a|
  {
    if a == [] {
      assert a + b == b;
    } else {
      var c, rest := a[0], a[1..];
      var head := if IsAscii(c) then [c] else [];
      assert a == [c] + rest;
      assert a + b == [c] + (rest + b);
      AsciiOnlyCons(c, rest + b);
      AsciiOnlyCons(c, rest);
      AsciiOnlyAppend(rest, b);
      var x, y, z := AsciiOnly(rest + b), AsciiOnly(rest), AsciiOnly(b);
      assert x == y + z;
      ConcatAssociates(head, y, z);
    }
  }

  lemma ConcatAssociates(p: string, q: string, r: string)
    ensures p + (q + r) == (p + q) + r
  {
  }

  /** Filtering a character followed by a text keeps that character exactly when it is ASCII, in front. */
  lemma AsciiOnlyCons(c: char, s: string)
    ensures AsciiOnly([c] + s) == (if IsAscii(c) then [c] else []) + AsciiOnly(s)
  {
    assert ([c] + s)[1..] == s;
  }

  /** On one character, filtering keeps it exactly when it is ASCII. */
  lemma AsciiOnlyOfOne(c: char)
    ensures AsciiOnly([c]) == if IsAscii(c) then [c] else []
  {
    assert [c][1..] == [];
  }

  /** Where `s.rsplit('.', 1)` splits: the position of the last '.', if there is one. */
  function LastDot(s: string): (r: Option<nat>)
    ensures r.None? <==> '.' !in s
    ensures r.Some? ==> r.value < |s| && s[r.value] == '.' && '.' !in s[r.value + 1..]
    decreases |s|
  {
    if s == [] then None
    else if s[|s| - 1] == '.' then Some(|s| - 1)
    else
      assert s == s[..|s| - 1] + [s[|s| - 1]];
      LastDot(s[..|s| - 1])
  }

  /**
   * Lines 38-45 as written: a string longer than MaxLength keeps `base[:MaxLength - len(ext) - 1]`,
   * a '.' and the extension `ext` after its last '.', or its first MaxLength characters when it
   * has no '.'. The slice bound is Python's, so it counts from the end when it is negative.
   */
  function Truncate(s: string): (r: string)
    ensures |s| <= MaxLength ==> r == s
    ensures s != [] ==> r != []
    ensures AllAscii(s) ==> AllAscii(r)
    ensures NoneForbidden(s) ==> NoneForbidden(r)
  {
    if |s| <= MaxLength then s
    else match LastDot(s)
      case None => SliceTo(s, MaxLength)
      case Some(i) => SliceTo(s[..i], MaxLength - |s[i + 1..]| - 1) + "." + s[i + 1..]
  }

  /** Lines 23-35: the string the truncation step receives. */
  function Filtered(name: string, nfkd: string -> string): (r: string)
    ensures AllAscii(r)
    ensures |r| <= |nfkd(ReplaceForbidden(name))|
    ensures NoneForbidden(nfkd(ReplaceForbidden(name))) ==> NoneForbidden(r)
  {
    AsciiOnly(nfkd(ReplaceForbidden(name)))
  }

  /** `sanitize_filename(name)` as written, with `nfkd` standing for `unicodedata.normalize('NFKD', _)`. */
  function SanitizeFilename(name: string, nfkd: string -> string): (r: string)
    ensures r != []
    ensures AllAscii(r)
  {
    var cut := Truncate(Filtered(name, nfkd));
    if cut == [] then Fallback else cut
  }

  /** The fallback is itself a safe name. */
  lemma FallbackIsSafe()
    ensures IsSafeName(Fallback)
  {
  }

  /** Line 48-49: the fallback replaces exactly the names that filter down to nothing. */
  lemma FallbackOnlyForEmpty(name: string, nfkd: string -> string)
    ensures SanitizeFilename(name, nfkd) == Fallback <==> Filtered(name, nfkd) == [] || Filtered(name, nfkd) == Fallback
  {
  }

  /**
   * A string of at most MaxLength characters that survives filtering is returned as it is:
   * no truncation happens (lines 38-39).
   */
  lemma ShortNameIsNotTruncated(name: string, nfkd: string -> string)
    requires 0 < |Filtered(name, nfkd)| <= MaxLength
    ensures SanitizeFilename(name, nfkd) == Filtered(name, nfkd)
  {
  }

  /**
   * Lines 41-43: cutting a long name with a '.' keeps a prefix of the text before the last '.',
   * then '.', then the text after it, unchanged. The result has exactly MaxLength characters
   * when the extension has fewer than MaxLength; otherwise the negative slice bound makes it
   * longer than MaxLength.
   */
  lemma TruncateKeepsExtension(s: string, i: nat)
    requires |s| > MaxLength
    requires LastDot(s) == Some(i)
    ensures var r, ext := Truncate(s), s[i + 1..];
      && |r| > |ext|
      && r[|r| - |ext| - 1..] == "." + ext
      && r[..|r| - |ext| - 1] <= s[..i]
      && (|ext| < MaxLength ==> |r| == MaxLength)
      && (|ext| >= MaxLength ==> |r| > MaxLength)
  {
    TruncateAtDot(s, i);
    assert |s[..i]| + 1 + |s[i + 1..]| == |s|;
    CutKeepsExtension(s[..i], s[i + 1..]);
  }

  /** The shape of line 43's expression for a base and an extension that are together too long. */
  lemma CutKeepsExtension(base: string, ext: string)
    requires |base| + 1 + |ext| > MaxLength
    ensures var r := SliceTo(base, MaxLength - |ext| - 1) + "." + ext;
      && |r| > |ext|
      && r[|r| - |ext| - 1..] == "." + ext
      && r[..|r| - |ext| - 1] <= base
      && (|ext| < MaxLength ==> |r| == MaxLength)
      && (|ext| >= MaxLength ==> |r| > MaxLength)
  {
    var head := SliceTo(base, MaxLength - |ext| - 1);
    assert head + "." + ext == head + [] + [] + "." + ext;
    FiveParts(head, [], [], ".", ext);
  }

  /** Lines 44-45: a long name without '.' keeps its first MaxLength characters. */
  lemma TruncateWithoutDot(s: string)
    requires |s| > MaxLength
    requires '.' !in s
    ensures Truncate(s) == s[..MaxLength]
  {
  }

  /**
   * The output is free of the forbidden characters whenever the normalisation adds none to the
   * string it receives (lines 23-35): the three passes remove them, and nothing after NFKD
   * introduces any.
   */
  lemma NoForbiddenWhenNormalisationAddsNone(name: string, nfkd: string -> string)
    requires NoneForbidden(nfkd(ReplaceForbidden(name)))
    ensures NoneForbidden(SanitizeFilename(name, nfkd))
  {
    FallbackIsSafe();
  }

  /** A name that is already safe: non-empty, ASCII, free of forbidden characters and at most MaxLength long. */
  predicate IsSafeName(s: string)
  {
    s != [] && |s| <= MaxLength && AllAscii(s) && NoneForbidden(s)
  }

  /** An already safe name is returned unchanged, given that NFKD leaves ASCII alone (lines 23-51). */
  lemma SafeNameUnchanged(name: string, nfkd: string -> string)
    requires FixesAscii(nfkd)
    requires IsSafeName(name)
    ensures SanitizeFilename(name, nfkd) == name
  {
    FilteredFixesAsciiSafe(name, nfkd);
  }

  /** Lines 23-35 leave an ASCII name without forbidden characters as it is, given that NFKD leaves ASCII alone. */
  lemma FilteredFixesAsciiSafe(name: string, nfkd: string -> string)
    requires FixesAscii(nfkd)
    requires AllAscii(name) && NoneForbidden(name)
    ensures Filtered(name, nfkd) == name
  {
    assert ReplaceForbidden(name) == name;
  }

  // ---- Findings: the code as written against what it evidently intends ----

  /** `"x" * n`. */
  function Repeat(c: char, n: nat): (r: string)
    ensures |r| == n && forall i :: 0 <= i < n ==> r[i] == c
  {
    seq(n, _ => c)
  }

  /**
   * As written, the cap does not hold: "a." followed by a 100-character extension comes out with
   * 101 characters, because `"a"[:-1]` is empty rather than an error.
   */
  lemma LongExtensionBreaksCap(nfkd: string -> string)
    requires FixesAscii(nfkd)
    ensures var name := "a." + Repeat('x', 100);
      SanitizeFilename(name, nfkd) == "." + Repeat('x', 100)
      && |SanitizeFilename(name, nfkd)| == MaxLength + 1
  {
    var ext := Repeat('x', 100);
    var name := "a." + ext;
    LongExtensionNameIsClean(ext);
    FilteredFixesAsciiSafe(name, nfkd);
    LongExtensionTruncation(ext);
  }

  lemma LongExtensionNameIsClean(ext: string)
    requires ext == Repeat('x', 100)
    ensures AllAscii("a." + ext) && NoneForbidden("a." + ext)
  {
    var name := "a." + ext;
    forall i | 0 <= i < |name|
      ensures IsAscii(name[i]) && !IsForbidden(name[i])
    {
      if i >= 2 {
        assert name[i] == ext[i - 2] == 'x';
      }
    }
  }

  lemma LongExtensionTruncation(ext: string)
    requires ext == Repeat('x', 100)
    ensures Truncate("a." + ext) == "." + ext
  {
    var name := "a." + ext;
    LastDotOfLongExtension(ext);
    assert name[2..] == ext;
    assert name[..1] == "a";
    assert SliceTo(name[..1], MaxLength - |ext| - 1) == [];
  }

  lemma LastDotOfLongExtension(ext: string)
    requires ext == Repeat('x', 100)
    ensures LastDot("a." + ext) == Some(1)
  {
    var name := "a." + ext;
    assert name[2..] == ext;
    assert '.' !in name[2..];
  }

  /**
   * As written, NFKD runs after the forbidden characters were replaced, so it can bring them
   * back: U+FF0F FULLWIDTH SOLIDUS decomposes to '/', and the "safe" name is a path separator.
   */
  lemma NormalisationReintroducesSlash(nfkd: string -> string)
    requires nfkd("\U{FF0F}") == "/"
    ensures SanitizeFilename("\U{FF0F}", nfkd) == "/"
    ensures !NoneForbidden(SanitizeFilename("\U{FF0F}", nfkd))
  {
    assert ReplaceForbidden("\U{FF0F}") == "\U{FF0F}";
    assert AllAscii("/");
  }

  /** The same for U+00A0 NO-BREAK SPACE, which decomposes to a plain space. */
  lemma NormalisationReintroducesSpace(nfkd: string -> string)
    requires nfkd("a\U{00A0}b") == "a b"
    ensures SanitizeFilename("a\U{00A0}b", nfkd) == "a b"
  {
    assert ReplaceForbidden("a\U{00A0}b") == "a\U{00A0}b";
    assert AllAscii("a b");
  }

  /**
   * The cap as intended: keep the extension only when it fits beside the '.', and otherwise cut
   * the whole string, so the result never exceeds MaxLength.
   */
  function TruncateCapped(s: string): (r: string)
    ensures |r| <= MaxLength
    ensures |s| <= MaxLength ==> r == s
    ensures |s| > MaxLength ==> |r| == MaxLength
    ensures AllAscii(s) ==> AllAscii(r)
    ensures NoneForbidden(s) ==> NoneForbidden(r)
  {
    if |s| <= MaxLength then s
    else match LastDot(s)
      case Some(i) =>
        if |s[i + 1..]| < MaxLength then s[..MaxLength - |s[i + 1..]| - 1] + s[i..]
        else s[..MaxLength]
      case None => s[..MaxLength]
  }

  /** The intended cap agrees with the code as written whenever the extension fits (or there is none). */
  lemma TruncateCappedAgreesWhenExtensionFits(s: string)
    requires LastDot(s).Some? ==> |s| - LastDot(s).value - 1 < MaxLength
    ensures TruncateCapped(s) == Truncate(s)
  {
    if |s| > MaxLength {
      if LastDot(s).Some? {
        CappedAgreesAtDot(s, LastDot(s).value);
      } else {
        assert Truncate(s) == SliceTo(s, MaxLength) == s[..MaxLength];
      }
    }
  }

  lemma CappedAgreesAtDot(s: string, i: nat)
    requires |s| > MaxLength && LastDot(s) == Some(i) && |s| - i - 1 < MaxLength
    ensures TruncateCapped(s) == Truncate(s)
  {
    var n := MaxLength - |s[i + 1..]| - 1;
    TruncateAtDot(s, i);
    TruncateCappedAtDot(s, i);
    CutAtDot(s, i, n);
  }

  /** The written cut of a long name at its last '.'. */
  lemma TruncateAtDot(s: string, i: nat)
    requires |s| > MaxLength && LastDot(s) == Some(i)
    ensures Truncate(s) == SliceTo(s[..i], MaxLength - |s[i + 1..]| - 1) + "." + s[i + 1..]
  {
  }

  /** The capped cut of a long name whose extension fits. */
  lemma TruncateCappedAtDot(s: string, i: nat)
    requires |s| > MaxLength && LastDot(s) == Some(i) && |s| - i - 1 < MaxLength
    ensures TruncateCapped(s) == s[..MaxLength - |s[i + 1..]| - 1] + s[i..]
  {
  }

  /** Keeping `s[..n]` and the text from the dot on is the as-written cut when `n` is within the base. */
  lemma CutAtDot(s: string, i: nat, n: nat)
    requires n <= i < |s| && s[i] == '.'
    ensures s[..n] + s[i..] == SliceTo(s[..i], n) + "." + s[i + 1..]
  {
    assert s[i..] == "." + s[i + 1..];
    assert SliceTo(s[..i], n) == s[..n];
  }

  /**
   * The name as intended: normalise first, then drop non-ASCII, then replace the forbidden
   * characters, then cap. The result is non-empty, ASCII, free of forbidden characters and at
   * most MaxLength long, whatever the normalisation does.
   */
  function SanitizeFilenameFixed(name: string, nfkd: string -> string): (r: string)
    ensures r != [] && |r| <= MaxLength
    ensures AllAscii(r) && NoneForbidden(r)
  {
    var cleaned := ReplaceForbidden(AsciiOnly(nfkd(name)));
    var cut := TruncateCapped(cleaned);
    FallbackIsSafe();
    if cut == [] then Fallback else cut
  }

  /** On an already safe name both versions agree: they return it unchanged. */
  lemma FixedAgreesOnSafeNames(name: string, nfkd: string -> string)
    requires FixesAscii(nfkd)
    requires IsSafeName(name)
    ensures SanitizeFilenameFixed(name, nfkd) == name == SanitizeFilename(name, nfkd)
  {
    SafeNameUnchanged(name, nfkd);
    assert ReplaceForbidden(name) == name;
  }
}
