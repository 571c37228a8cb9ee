/**
 * The two POSIX path helpers used to locate an app bundle's executable:
 * `os.path.basename` and `os.path.splitext`.
 */
module Paths {
  import opened Text

  /**
   * `os.path.basename(p)`: everything after the last `/`. The result is the
   * longest suffix of `p` that holds no `/`.
   */
  function Basename(p: string): (b: string)
    ensures '/' !in b
    ensures |b| <= |p| && p[|p| - |b|..] == b
    ensures |b| < |p| ==> p[|p| - |b| - 1] == '/'
  {
    p[LastIndexOf(p, '/') + 1..]
  }

  /** A `.` at `d` after which `p` holds neither a `.` nor a `/`: the last dot of the last component. */
  predicate IsExtensionStart(p: string, d: int) {
    0 <= d < |p| && p[d] == '.' &&
    forall j :: d < j < |p| ==> p[j] != '.' && p[j] != '/'
  }

  /** Inside the last component, some character before `d` is not a dot (leading dots do not start an extension). */
  predicate HasStemBefore(p: string, d: int)
    requires 0 <= d <= |p|
  {
    exists i :: 0 <= i < d && p[i] != '.' && forall j :: i <= j < d ==> p[j] != '/'
  }

  /** `p[lo..hi]` holds a character other than `.`. */
  predicate HasNonDot(p: string, lo: int, hi: int)
    requires 0 <= lo && hi <= |p|
  {
    exists i :: lo <= i < hi && p[i] != '.'
  }

  /**
   * `os.path.splitext(p)`: `(root, ext)` with `root + ext == p`, where `ext`
   * runs from the last dot of the last path component, unless every
   * character of that component before the dot is itself a dot.
   */
  function SplitExt(p: string): (r: (string, string))
    ensures r.0 + r.1 == p
    ensures r.1 != [] <==> exists d :: IsExtensionStart(p, d) && HasStemBefore(p, d)
    ensures r.1 != [] ==> IsExtensionStart(p, |r.0|) && HasStemBefore(p, |r.0|)
  {
    var sepIndex := LastIndexOf(p, '/');
    var dotIndex := LastIndexOf(p, '.');
    if dotIndex > sepIndex && HasNonDot(p, sepIndex + 1, dotIndex) then
      SplitAtLastDot(p, sepIndex, dotIndex);
      assert p[..dotIndex] + p[dotIndex..] == p;
      (p[..dotIndex], p[dotIndex..])
    else
      assert forall d :: IsExtensionStart(p, d) ==> !HasStemBefore(p, d) by {
        forall d | IsExtensionStart(p, d)
          ensures !HasStemBefore(p, d)
        {
          if HasStemBefore(p, d) {
            StemForcesSplit(p, sepIndex, dotIndex, d);
            assert false;
          }
        }
      }
      (p, [])
  }

  /** When `SplitExt` cuts at the last dot, that dot starts an extension with a stem before it. */
  lemma SplitAtLastDot(p: string, sepIndex: int, dotIndex: int)
    requires sepIndex == LastIndexOf(p, '/') && dotIndex == LastIndexOf(p, '.')
    requires dotIndex > sepIndex && HasNonDot(p, sepIndex + 1, dotIndex)
    ensures IsExtensionStart(p, dotIndex) && HasStemBefore(p, dotIndex)
  {
    var i :| sepIndex + 1 <= i < dotIndex && p[i] != '.';
  }

  /** A dot that starts an extension with a stem before it makes the rule of `SplitExt` cut. */
  lemma StemForcesSplit(p: string, sepIndex: int, dotIndex: int, d: int)
    requires sepIndex == LastIndexOf(p, '/') && dotIndex == LastIndexOf(p, '.')
    requires IsExtensionStart(p, d) && HasStemBefore(p, d)
    ensures dotIndex > sepIndex && HasNonDot(p, sepIndex + 1, dotIndex)
  {
    var i :| 0 <= i < d && p[i] != '.' && forall j :: i <= j < d ==> p[j] != '/';
    assert HasNonDot(p, sepIndex + 1, dotIndex);
  }

  /** The base name of `Payload/Demo.app` is `Demo.app`. */
  lemma BasenameExample()
    ensures Basename("Payload/Demo.app") == "Demo.app"
  {
    var p := "Payload/Demo.app";
    assert p[7] == '/';
    assert forall j :: 7 < j < |p| ==> p[j] != '/';
    assert LastIndexOf(p, '/') == 7;
  }

  /** `Demo.app` splits into the stem `Demo` and the extension `.app`. */
  lemma SplitExtExample()
    ensures SplitExt("Demo.app") == ("Demo", ".app")
  {
    var b := "Demo.app";
    assert forall j :: 0 <= j < |b| ==> b[j] != '/';
    assert LastIndexOf(b, '/') == -1;
    assert b[4] == '.';
    assert forall j :: 4 < j < |b| ==> b[j] != '.';
    assert LastIndexOf(b, '.') == 4;
    assert b[0] != '.';
    assert HasNonDot(b, 0, 4);
    assert b[..4] == "Demo" && b[4..] == ".app";
  }

}
