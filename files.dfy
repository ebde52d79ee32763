/**
 * `generateFilename` of src/utils/files.ts: the download name of a GIF, a
 * cleaned-up title followed by the id.
 */
module Files {
  import opened Seqs
  import opened Strings

  /** The characters `[a-z0-9\s-]` lets through. */
  predicate Allowed(c: char) {
    ('a' <= c <= 'z') || IsDigit(c) || IsWhitespace(c) || c == '-'
  }

  /** The characters a clean title is made of. */
  predicate FilenameChar(c: char) {
    ('a' <= c <= 'z') || IsDigit(c) || c == '-'
  }

  predicate NoWhitespace(s: string) {
    forall k :: 0 <= k < |s| ==> !IsWhitespace(s[k])
  }

  /** `.replace(/[^a-z0-9\s-]/g, "")`: every other character is dropped, the rest keep their order. */
  function StripDisallowed(s: string): (r: string)
    ensures |r| <= |s|
    ensures forall k :: 0 <= k < |r| ==> Allowed(r[k])
  {
    if s == [] then []
    else if Allowed(s[0]) then [s[0]] + StripDisallowed(s[1..])
    else StripDisallowed(s[1..])
  }

  /** `.replace(/\s+/g, "-")`: every maximal run of whitespace becomes one hyphen. */
  function DashRuns(s: string): (r: string)
    ensures |r| <= |s|
    ensures s != [] ==> r != [] && r[0] == if IsWhitespace(s[0]) then '-' else s[0]
    decreases |s|
  {
    if s == [] then []
    else if IsWhitespace(s[0]) then "-" + DashRuns(TrimStart(s))
    else [s[0]] + DashRuns(s[1..])
  }

  /** No whitespace is left, and every character is a hyphen or comes from the input. */
  lemma DashRunsShape(s: string)
    ensures NoWhitespace(DashRuns(s))
    ensures forall k :: 0 <= k < |DashRuns(s)| ==> DashRuns(s)[k] == '-' || DashRuns(s)[k] in s
  {
    DashRunsNoWhitespace(s);
    DashRunsOrigin(s);
  }

  /** One step of `DashRuns`: the first character or run, then the rest of the text. */
  lemma DashStep(s: string, space: bool, rest: string)
    requires s != [] && space == IsWhitespace(s[0])
    requires rest == if space then TrimStart(s) else s[1..]
    ensures DashRuns(s) == [if space then '-' else s[0]] + DashRuns(rest)
  {
  }

  /** What one step of `DashRuns` leaves to hyphenate is a shorter suffix of the text. */
  lemma DashRest(s: string, space: bool, rest: string)
    requires s != [] && space == IsWhitespace(s[0])
    requires rest == if space then TrimStart(s) else s[1..]
    ensures |rest| < |s| && rest == s[|s| - |rest|..]
  {
  }

  lemma {:induction false} DashRunsNoWhitespace(s: string)
    ensures NoWhitespace(DashRuns(s))
    decreases |s|
  {
    if s != [] {
      var space := IsWhitespace(s[0]);
      var rest := if space then TrimStart(s) else s[1..];
      DashStep(s, space, rest);
      DashRest(s, space, rest);
      DashRunsNoWhitespace(rest);
      ConsNoWhitespace(if space then '-' else s[0], DashRuns(rest));
    }
  }

  lemma ConsNoWhitespace(c: char, d: string)
    requires !IsWhitespace(c) && NoWhitespace(d)
    ensures NoWhitespace([c] + d)
  {
    var r := [c] + d;
    assert forall k :: 1 <= k < |r| ==> r[k] == d[k - 1];
  }

  lemma {:induction false} DashRunsOrigin(s: string)
    ensures forall k :: 0 <= k < |DashRuns(s)| ==> DashRuns(s)[k] == '-' || DashRuns(s)[k] in s
    decreases |s|
  {
    if s != [] {
      var space := IsWhitespace(s[0]);
      var rest := if space then TrimStart(s) else s[1..];
      DashStep(s, space, rest);
      DashRest(s, space, rest);
      DashRunsOrigin(rest);
      ConsOrigin(s, if space then '-' else s[0], rest, DashRuns(rest));
    }
  }

  /** A hyphen or a character of `s`, followed by hyphens and characters of a suffix of `s`. */
  lemma ConsOrigin(s: string, c: char, rest: string, d: string)
    requires c == '-' || c in s
    requires |rest| <= |s| && rest == s[|s| - |rest|..]
    requires forall k :: 0 <= k < |d| ==> d[k] == '-' || d[k] in rest
    ensures forall k :: 0 <= k < |[c] + d| ==> ([c] + d)[k] == '-' || ([c] + d)[k] in s
  {
    var r := [c] + d;
    forall k | 1 <= k < |r| ensures r[k] == '-' || r[k] in s {
      assert r[k] == d[k - 1];
      if d[k - 1] != '-' {
        var j :| 0 <= j < |rest| && rest[j] == d[k - 1];
        assert s[|s| - |rest| + j] == rest[j];
      }
    }
  }

  /** `.substring(0, 50)`. */
  function Take(s: string, n: nat): (r: string)
    ensures r == s[..if |s| < n then |s| else n]
  {
    if |s| <= n then s else s[..n]
  }

  /** `substring(0, n)` is the longest prefix of at most n characters: the whole text when it is short enough, and cutting again changes nothing. */
  lemma TakePrefix(s: string, n: nat)
    ensures Take(s, n) <= s
    ensures |Take(s, n)| <= n
    ensures Take(s, n) == s <==> |s| <= n
    ensures |s| > n ==> |Take(s, n)| == n
    ensures Take(Take(s, n), n) == Take(s, n)
  {
  }

  /** The title part of the name: lower-cased, filtered, whitespace runs as hyphens, cut to 50, trimmed, else "gif". */
  function CleanTitle(title: string): string {
    var t := Trim(Take(DashRuns(StripDisallowed(LowerAscii(title))), 50));
    if t == "" then "gif" else t
  }

  /** `generateFilename`. */
  function GenerateFilename(title: string, id: string): string {
    CleanTitle(title) + "-" + id + ".gif"
  }

  /** A string without whitespace is its own trim. */
  lemma TrimWithoutWhitespace(s: string)
    requires NoWhitespace(s)
    ensures Trim(s) == s
  {
    TrimNoEdgeWhitespace(s);
  }

  /** Filtering keeps exactly the allowed characters: a string of them only is left unchanged. */
  lemma {:induction false} StripKeepsAllowed(s: string)
    requires forall k :: 0 <= k < |s| ==> Allowed(s[k])
    ensures StripDisallowed(s) == s
  {
    if s != [] {
      StripKeepsAllowed(s[1..]);
    }
  }

  /** Filtering works character by character, so it distributes over concatenation. */
  lemma {:induction false} StripConcat(a: string, b: string)
    ensures StripDisallowed(a + b) == StripDisallowed(a) + StripDisallowed(b)
  {
    if a == [] {
      assert a + b == b;
    } else {
      var ab := a + b;
      assert ab[0] == a[0] && ab[1..] == a[1..] + b;
      StripConcat(a[1..], b);
      var tail := StripDisallowed(a[1..]) + StripDisallowed(b);
      assert StripDisallowed(ab) == if Allowed(a[0]) then [a[0]] + tail else tail;
      assert StripDisallowed(a) == if Allowed(a[0]) then [a[0]] + StripDisallowed(a[1..]) else StripDisallowed(a[1..]);
    }
  }

  /** A whole run of whitespace becomes a single hyphen, and what follows the run is handled on its own. */
  lemma DashRunsRun(w: string, y: string)
    requires w != [] && AllWhitespace(w)
    requires y == [] || !IsWhitespace(y[0])
    ensures DashRuns(w + y) == "-" + DashRuns(y)
  {
    assert (w + y)[0] == w[0];
    TrimStartSkipsWhitespace(w, y);
    assert TrimStart(y) == y;
  }

  /** A string without whitespace keeps its hyphens and letters as they are. */
  lemma {:induction false} DashRunsWithoutWhitespace(s: string)
    requires NoWhitespace(s)
    ensures DashRuns(s) == s
  {
    if s != [] {
      DashRunsWithoutWhitespace(s[1..]);
    }
  }

  /** Hyphenating a filtered string leaves only filename characters. */
  lemma DashRunsChars(s: string)
    requires forall k :: 0 <= k < |s| ==> Allowed(s[k])
    ensures forall k :: 0 <= k < |DashRuns(s)| ==> FilenameChar(DashRuns(s)[k])
  {
    var d := DashRuns(s);
    DashRunsShape(s);
    forall k | 0 <= k < |d| ensures FilenameChar(d[k]) {
      if d[k] != '-' {
        var j :| 0 <= j < |s| && s[j] == d[k];
        assert Allowed(s[j]) && !IsWhitespace(d[k]);
      }
    }
  }

  /**
   * The clean title is between 1 and 50 characters, all lower-case ASCII
   * letters, digits or hyphens; the final trim never changes it, since no
   * whitespace is left by then; and it is "gif" when filtering left nothing,
   * and otherwise the first 50 characters of the hyphenated text.
   */
  lemma CleanTitleShape(title: string)
    ensures var c := CleanTitle(title);
      && 1 <= |c| <= 50
      && (forall k :: 0 <= k < |c| ==> FilenameChar(c[k]))
    ensures var s := StripDisallowed(LowerAscii(title));
      && Trim(Take(DashRuns(s), 50)) == Take(DashRuns(s), 50)
      && (s == [] ==> CleanTitle(title) == "gif")
      && (s != [] ==> CleanTitle(title) == Take(DashRuns(s), 50))
  {
    var s := StripDisallowed(LowerAscii(title));
    var d := DashRuns(s);
    var t := Take(d, 50);
    DashRunsShape(s);
    DashRunsChars(s);
    assert forall k :: 0 <= k < |t| ==> t[k] == d[k];
    assert NoWhitespace(t);
    assert forall k :: 0 <= k < |t| ==> FilenameChar(t[k]);
    TrimWithoutWhitespace(t);
    assert (s == []) == (t == []);
    FallbackName();
  }

  /** The fallback title is a clean title. */
  lemma FallbackName()
    ensures forall k :: 0 <= k < |"gif"| ==> FilenameChar("gif"[k])
  {
    var g := "gif";
    assert g[0] == 'g' && g[1] == 'i' && g[2] == 'f';
  }

  /** The name is the clean title, a hyphen, the id, and ".gif". */
  lemma FilenameLayout(title: string, id: string)
    ensures var f, c := GenerateFilename(title, id), CleanTitle(title);
      && |f| == |c| + |id| + 5
      && f[..|c|] == c
      && f[|c|] == '-'
      && f[|c| + 1..|f| - 4] == id
      && f[|f| - 4..] == ".gif"
  {
    var c := CleanTitle(title);
    Layout4(c, "-", id, ".gif");
    var f := c + "-" + id + ".gif";
    assert f[|c|..|c| + 1] == "-";
    assert f[|c|] == f[|c|..|c| + 1][0];
  }

  /** Titles that differ only in the case of ASCII letters give the same name. */
  lemma CaseInsensitive(a: string, b: string, id: string)
    requires |a| == |b|
    requires forall k :: 0 <= k < |a| ==> LowerChar(a[k]) == LowerChar(b[k])
    ensures GenerateFilename(a, id) == GenerateFilename(b, id)
  {
    assert LowerAscii(a) == LowerAscii(b);
  }

  /**
   * As written, the trim comes after whitespace has become hyphens, so
   * surrounding whitespace survives as hyphens: " a" and "a" name the same
   * GIF differently.
   */
  lemma EdgeWhitespaceBecomesDash()
    ensures CleanTitle(" a") == "-a"
    ensures CleanTitle("a") == "a"
  {
    SpaceA();
    SpaceADashes();
    TrimWithoutWhitespace("-a");
    LetterA();
  }

  lemma SpaceADashes()
    ensures DashRuns(" a") == "-a"
    ensures NoWhitespace("-a")
  {
    assert " a" == " " + "a";
    DashRunsRun(" ", "a");
    DashRunsWithoutWhitespace("a");
  }

  lemma SpaceA()
    ensures StripDisallowed(LowerAscii(" a")) == " a"
  {
    var l := LowerAscii(" a");
    assert l[0] == ' ' && l[1] == 'a';
    assert l == " a";
    StripKeepsAllowed(" a");
  }

  lemma LetterA()
    ensures CleanTitle("a") == "a"
  {
    var l := LowerAscii("a");
    assert l[0] == 'a';
    assert l == "a";
    StripKeepsAllowed("a");
    DashRunsWithoutWhitespace("a");
    TrimWithoutWhitespace("a");
  }

  /** The clean title with the trim where it takes effect: after filtering, before whitespace runs become hyphens. */
  function CleanTitleTrimmed(title: string): string {
    var t := Take(DashRuns(Trim(StripDisallowed(LowerAscii(title)))), 50);
    if t == "" then "gif" else t
  }

  function GenerateFilenameTrimmed(title: string, id: string): string {
    CleanTitleTrimmed(title) + "-" + id + ".gif"
  }

  /** Lower-casing works character by character. */
  lemma LowerConcat(a: string, b: string)
    ensures LowerAscii(a + b) == LowerAscii(a) + LowerAscii(b)
  {
  }

  /** What filtering leaves of whitespace is that whitespace. */
  lemma StripWhitespace(w: string)
    requires AllWhitespace(w)
    ensures StripDisallowed(LowerAscii(w)) == w
  {
    var l := LowerAscii(w);
    assert forall k :: 0 <= k < |l| ==> l[k] == w[k];
    assert l == w;
    StripKeepsAllowed(w);
  }

  /** With the trim in its intended place, whitespace around the title does not change the name. */
  lemma TrimmedIgnoresSurroundingWhitespace(w1: string, title: string, w2: string, id: string)
    requires AllWhitespace(w1) && AllWhitespace(w2)
    ensures CleanTitleTrimmed(w1 + title + w2) == CleanTitleTrimmed(title)
    ensures GenerateFilenameTrimmed(w1 + title + w2, id) == GenerateFilenameTrimmed(title, id)
  {
    LowerConcat(w1 + title, w2);
    LowerConcat(w1, title);
    var l1, l, l2 := LowerAscii(w1), LowerAscii(title), LowerAscii(w2);
    StripConcat(l1 + l, l2);
    StripConcat(l1, l);
    StripWhitespace(w1);
    StripWhitespace(w2);
    TrimIgnoresSurroundingWhitespace(w1, StripDisallowed(l), w2);
  }

  /** Trimming a filtered string leaves a filtered string. */
  lemma TrimKeepsAllowed(f: string)
    requires forall k :: 0 <= k < |f| ==> Allowed(f[k])
    ensures forall k :: 0 <= k < |Trim(f)| ==> Allowed(Trim(f)[k])
  {
    var a := TrimStart(f);
    var b := TrimEnd(a);
    assert Trim(f) == b;
    forall k | 0 <= k < |b| ensures Allowed(b[k]) {
      assert b[k] == a[k] == f[|f| - |a| + k];
    }
  }

  /** The intended name keeps the promised shape, and begins with the first character filtering kept that is not whitespace. */
  lemma TrimmedShape(title: string)
    ensures var c := CleanTitleTrimmed(title);
      && 1 <= |c| <= 50
      && (forall k :: 0 <= k < |c| ==> FilenameChar(c[k]))
      && (Trim(StripDisallowed(LowerAscii(title))) != [] ==> c[0] == Trim(StripDisallowed(LowerAscii(title)))[0])
  {
    var f := StripDisallowed(LowerAscii(title));
    var s := Trim(f);
    var d := DashRuns(s);
    var t := Take(d, 50);
    TrimKeepsAllowed(f);
    DashRunsChars(s);
    assert forall k :: 0 <= k < |t| ==> t[k] == d[k];
    if s != [] {
      TrimEdges(f);
      assert !IsWhitespace(s[0]);
      assert t[0] == s[0];
    }
  }

  /** The intended name of "a". */
  lemma TrimmedLetterA()
    ensures CleanTitleTrimmed("a") == "a"
  {
    var l := LowerAscii("a");
    assert l[0] == 'a';
    assert l == "a";
    StripKeepsAllowed("a");
    TrimWithoutWhitespace("a");
    DashRunsWithoutWhitespace("a");
  }

  /** The edge-whitespace example under the intended order: " a" and "a" now give the same name. */
  lemma TrimmedEdgeExample()
    ensures CleanTitleTrimmed(" a") == "a"
    ensures CleanTitleTrimmed("a") == "a"
  {
    SpaceA();
    TrimSpaceA();
    TrimmedLetterA();
  }

  lemma TrimSpaceA()
    ensures Trim(" a") == "a"
  {
    assert " a" == " " + "a";
    TrimStartSkipsWhitespace(" ", "a");
    TrimNoEdgeWhitespace("a");
  }
}
