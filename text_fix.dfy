/** utils/text_fix.py: `sanitize_filename`. */
module TextFix {
  import opened Text
  import opened PySlice
  import opened Paths

  /** The characters the regular expression `[^A-Za-z0-9_.-]` keeps. */
  predicate SafeChar(c: char) {
    ('A' <= c <= 'Z') || ('a' <= c <= 'z') || ('0' <= c <= '9') || c == '_' || c == '.' || c == '-'
  }

  /** `re.sub(r'[^A-Za-z0-9_.-]', '', name)`: the safe characters of `name`, in order. */
  function KeepSafe(name: string): (r: string)
    ensures |r| <= |name|
    ensures forall i :: 0 <= i < |r| ==> SafeChar(r[i])
  {
    if name == [] then []
    else
      assert name == [name[0]] + name[1..];
      (if SafeChar(name[0]) then [name[0]] else []) + KeepSafe(name[1..])
  }

  /** Every safe character is kept as often as the name has it, and no
      other character is kept. */
  lemma {:induction false} KeepSafeCounts(name: string, c: char)
    ensures multiset(KeepSafe(name))[c] == if SafeChar(c) then multiset(name)[c] else 0
  {
    if name != [] {
      KeepSafeCounts(name[1..], c);
      assert name == [name[0]] + name[1..];
      assert multiset(name) == multiset([name[0]]) + multiset(name[1..]);
    }
  }

  const UnnamedFile: string := "unnamed_file"

  /** The base name of `filename`, split into name and extension. */
  function Parts(filename: string): (string, string) {
    SplitExt(Basename(filename))
  }

  /** The safe characters of the name, or `unnamed_file` when there are none. */
  function NamedPart(filename: string): string {
    var kept := KeepSafe(Parts(filename).0);
    if kept == "" then UnnamedFile else kept
  }

  /** The name part of the result, cut to the room the extension leaves. */
  function SafeName(filename: string, maxLength: int): string {
    Take(NamedPart(filename), maxLength - |Parts(filename).1|)
  }

  /** `sanitize_filename(filename, max_length)`. */
  function SanitizeFilename(filename: string, maxLength: int): string {
    SafeName(filename, maxLength) + Parts(filename).1
  }

  /** The result has no directory part: it holds no slash. */
  lemma NoDirectory(filename: string, maxLength: int)
    ensures '/' !in SanitizeFilename(filename, maxLength)
  {
    NameIsSafe(filename, maxLength);
    var t := SafeName(filename, maxLength);
    var ext := Parts(filename).1;
    assert '/' !in t;
    assert '/' !in ext;
  }

  lemma NamedPartIsSafe(filename: string)
    ensures forall i :: 0 <= i < |NamedPart(filename)| ==> SafeChar(NamedPart(filename)[i])
  {
    assert forall i :: 0 <= i < |UnnamedFile| ==> SafeChar(UnnamedFile[i]);
  }

  lemma TakeKeepsSafe(s: string, stop: int)
    requires forall i :: 0 <= i < |s| ==> SafeChar(s[i])
    ensures forall i :: 0 <= i < |Take(s, stop)| ==> SafeChar(Take(s, stop)[i])
  {
    TakeIsPrefix(s, stop);
  }

  /** Before the extension, only safe characters remain. */
  lemma NameIsSafe(filename: string, maxLength: int)
    ensures forall i :: 0 <= i < |SafeName(filename, maxLength)| ==> SafeChar(SafeName(filename, maxLength)[i])
  {
    NamedPartIsSafe(filename);
    TakeKeepsSafe(NamedPart(filename), maxLength - |Parts(filename).1|);
  }

  /** A name with no safe character is replaced by `unnamed_file`, cut to the room left. */
  lemma EmptyBecomesUnnamed(filename: string, maxLength: int)
    requires KeepSafe(Parts(filename).0) == ""
    ensures SanitizeFilename(filename, maxLength) == Take(UnnamedFile, maxLength - |Parts(filename).1|) + Parts(filename).1
  {
  }

  /** The extension is kept, whole, at the end. */
  lemma KeepsExtension(filename: string, maxLength: int)
    ensures EndsWith(SanitizeFilename(filename, maxLength), Parts(filename).1)
  {
    var r := SanitizeFilename(filename, maxLength);
    var ext := Parts(filename).1;
    assert r[|r| - |ext|..] == ext;
  }

  /** When the extension fits, so does the whole name. */
  lemma RespectsMaxLength(filename: string, maxLength: int)
    requires |Parts(filename).1| <= maxLength
    ensures |SanitizeFilename(filename, maxLength)| <= maxLength
  {
  }

  /** When the extension alone is longer than the limit, Python's negative
      slice bound drops `len(ext) - max_length` characters from the end of
      the name instead of emptying it, and the result is longer than the limit. */
  lemma LongExtensionOverflows(filename: string, maxLength: int)
    requires maxLength >= 0 && |Parts(filename).1| > maxLength
    ensures var k := |NamedPart(filename)| - (|Parts(filename).1| - maxLength);
            SanitizeFilename(filename, maxLength) == NamedPart(filename)[..if k < 0 then 0 else k] + Parts(filename).1
    ensures |SanitizeFilename(filename, maxLength)| > maxLength
  {
  }
}
