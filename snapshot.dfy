/**
 * Where `fetch_snapshot_ffmpeg` writes a camera's frame: the camera name with
 * every `/` replaced by `-` and then every space by `_`, under
 * `static/snapshots/`, with the extension `.jpg` (main.py:40-41).
 */
module Snapshot {

  const SnapshotDir: string := "static/snapshots/"

  /** `s.replace(x, y)` for a one-character `x`. */
  function Replace(s: string, x: char, y: char): (r: string)
  {
    if s == [] then [] else [if s[0] == x then y else s[0]] + Replace(s[1..], x, y)
  }

  lemma {:induction false} ReplaceAt(s: string, x: char, y: char)
    ensures |Replace(s, x, y)| == |s|
    ensures forall i :: 0 <= i < |s| ==> Replace(s, x, y)[i] == if s[i] == x then y else s[i]
  {
    if s != [] {
      ReplaceAt(s[1..], x, y);
    }
  }

  /** `name.replace("/", "-").replace(" ", "_")`. */
  function SafeName(name: string): string
  {
    Replace(Replace(name, '/', '-'), ' ', '_')
  }

  function SnapshotPath(name: string): (p: string)
    ensures |SnapshotDir| <= |p| && p[..|SnapshotDir|] == SnapshotDir
  {
    SnapshotDir + SafeName(name) + ".jpg"
  }

  /** The character that one character of the camera name becomes. */
  function SafeChar(c: char): char
  {
    if c == '/' then '-' else if c == ' ' then '_' else c
  }

  /** Sanitising keeps the length and maps the name character by character. */
  lemma SafeNameAt(name: string)
    ensures |SafeName(name)| == |name|
    ensures forall i :: 0 <= i < |name| ==> SafeName(name)[i] == SafeChar(name[i])
  {
    ReplaceAt(name, '/', '-');
    ReplaceAt(Replace(name, '/', '-'), ' ', '_');
  }

  /** The sanitised name is one path segment without spaces; nothing else is altered. */
  lemma SafeNameClean(name: string)
    ensures |SafeName(name)| == |name|
    ensures forall i :: 0 <= i < |name| ==> SafeName(name)[i] != '/' && SafeName(name)[i] != ' '
    ensures forall i :: 0 <= i < |name| && name[i] != '/' && name[i] != ' ' ==> SafeName(name)[i] == name[i]
  {
    SafeNameAt(name);
  }

  /** A name is left alone exactly when it holds neither `/` nor a space. */
  lemma SafeNameFixed(name: string)
    ensures SafeName(name) == name <==> forall i :: 0 <= i < |name| ==> name[i] != '/' && name[i] != ' '
  {
    SafeNameAt(name);
    if forall i :: 0 <= i < |name| ==> name[i] != '/' && name[i] != ' ' {
      assert forall i :: 0 <= i < |name| ==> SafeName(name)[i] == name[i];
    } else {
      var i :| 0 <= i < |name| && (name[i] == '/' || name[i] == ' ');
      assert SafeName(name)[i] != name[i];
    }
  }

  /** Sanitising twice is sanitising once. */
  lemma SafeNameIdempotent(name: string)
    ensures SafeName(SafeName(name)) == SafeName(name)
  {
    SafeNameAt(name);
    SafeNameFixed(SafeName(name));
  }

  /** Two camera names share a snapshot file exactly when they differ only by `/` against `-` or space against `_`. */
  lemma SamePath(a: string, b: string)
    ensures SnapshotPath(a) == SnapshotPath(b) <==>
      |a| == |b| && forall i :: 0 <= i < |a| ==> SafeChar(a[i]) == SafeChar(b[i])
  {
    SafeNameAt(a);
    SafeNameAt(b);
    var pa, pb := SafeName(a) + ".jpg", SafeName(b) + ".jpg";
    if SnapshotPath(a) == SnapshotPath(b) {
      assert SnapshotPath(a) == SnapshotDir + pa && SnapshotPath(b) == SnapshotDir + pb;
      assert pa == (SnapshotDir + pa)[|SnapshotDir|..];
      assert pa == pb;
      assert |a| == |b|;
      forall i | 0 <= i < |a|
        ensures SafeChar(a[i]) == SafeChar(b[i])
      {
        assert pa[i] == SafeName(a)[i];
      }
    }
    if |a| == |b| && forall i :: 0 <= i < |a| ==> SafeChar(a[i]) == SafeChar(b[i]) {
      assert SafeName(a) == SafeName(b);
    }
  }

  /** The mapping is not injective: two distinct names, one file. */
  lemma NotInjective()
    ensures "a b" != "a_b" && SnapshotPath("a b") == SnapshotPath("a_b")
  {
    SamePath("a b", "a_b");
  }
}
