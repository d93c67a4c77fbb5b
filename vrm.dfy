/** Normalisation and validation of a vehicle registration mark (VRM) typed by
    a chat user: `normalize_vrm` and `VRM_RE` in bot.py.

    Characters are Dafny's Unicode scalar values. Whitespace is the exact set
    that Python's `\s` matches in a `str` pattern (the characters for which
    `str.isspace()` holds). Upper-casing is modelled on ASCII only: `a`..`z`
    become `A`..`Z` and every other character is left as it is. */
module Vrm {
  import opened Wrappers

  /** Python's `\s` on `str`: tab, line feed, vertical tab, form feed, carriage
      return, the four ASCII separators 0x1C..0x1F, space, and the Unicode
      spaces and line/paragraph separators. */
  predicate IsSpace(c: char)
    ensures IsSpace(c) ==> !IsLower(c) && !IsVrmChar(c)
  {
    ('\t' <= c <= '\r') || ('\U{1C}' <= c <= ' ') ||
    c == '\U{85}' || c == '\U{A0}' || c == '\U{1680}' ||
    ('\U{2000}' <= c <= '\U{200A}') || c == '\U{2028}' || c == '\U{2029}' ||
    c == '\U{202F}' || c == '\U{205F}' || c == '\U{3000}'
  }

  predicate IsLower(c: char) {
    'a' <= c <= 'z'
  }

  /** `str.upper()` on one character, restricted to ASCII. */
  function UpperChar(c: char): (u: char)
    ensures !IsLower(u)
    ensures IsSpace(u) <==> IsSpace(c)
    ensures !IsLower(c) ==> u == c
  {
    if IsLower(c) then (c as int - 32) as char else c
  }

  /** `str.upper()`: every character upper-cased, nothing added or removed. */
  function Upper(s: string): (r: string)
    ensures |r| == |s|
    ensures forall i :: 0 <= i < |s| ==> r[i] == UpperChar(s[i])
  {
    if s == [] then [] else [UpperChar(s[0])] + Upper(s[1..])
  }

  /** Reference definition of "delete every whitespace character": the
      characters of `s` that are not whitespace, in order. */
  function RemoveSpace(s: string): (r: string)
    ensures |r| <= |s|
    ensures forall i :: 0 <= i < |r| ==> !IsSpace(r[i])
    ensures forall i :: 0 <= i < |r| ==> r[i] in s
  {
    if s == [] then []
    else if IsSpace(s[0]) then RemoveSpace(s[1..])
    else [s[0]] + RemoveSpace(s[1..])
  }

  /** The suffix of `s` after its leading whitespace run (what `\s+` consumes
      at the start of `s`: greedy, so the whole run). */
  function DropSpaceRun(s: string): (r: string)
    ensures |r| <= |s|
    ensures r == s[|s| - |r|..]
    ensures forall i :: 0 <= i < |s| - |r| ==> IsSpace(s[i])
    ensures r != [] ==> !IsSpace(r[0])
  {
    if s != [] && IsSpace(s[0]) then DropSpaceRun(s[1..]) else s
  }

  /** `re.sub(r"\s+", "", s)` as the regex engine runs it: scan left to right,
      and replace each maximal whitespace run by the empty string. */
  function SubSpaceRuns(s: string): (r: string)
    ensures |r| <= |s|
    ensures forall i :: 0 <= i < |r| ==> !IsSpace(r[i])
    ensures forall i :: 0 <= i < |r| ==> r[i] in s
    decreases |s|
  {
    if s == [] then []
    else if IsSpace(s[0]) then SubSpaceRuns(DropSpaceRun(s))
    else [s[0]] + SubSpaceRuns(s[1..])
  }

  /** Deleting each whitespace run is deleting each whitespace character. */
  lemma {:induction false} SubSpaceRunsIsRemoveSpace(s: string)
    ensures SubSpaceRuns(s) == RemoveSpace(s)
    decreases |s|
  {
    if s == [] {
    } else if IsSpace(s[0]) {
      var t := DropSpaceRun(s);
      assert SubSpaceRuns(s) == SubSpaceRuns(t);
      SubSpaceRunsIsRemoveSpace(t);
      RemoveSpaceSkipsSpace(s, |s| - |t|);
      assert t == s[|s| - |t|..];
    } else {
      assert SubSpaceRuns(s) == [s[0]] + SubSpaceRuns(s[1..]);
      assert RemoveSpace(s) == [s[0]] + RemoveSpace(s[1..]);
      SubSpaceRunsIsRemoveSpace(s[1..]);
    }
  }

  /** Removing whitespace ignores a prefix made only of whitespace. */
  lemma {:induction false} RemoveSpaceSkipsSpace(s: string, k: nat)
    requires k <= |s|
    requires forall i :: 0 <= i < k ==> IsSpace(s[i])
    ensures RemoveSpace(s) == RemoveSpace(s[k..])
  {
    if k > 0 {
      assert s[1..][k - 1..] == s[k..];
      RemoveSpaceSkipsSpace(s[1..], k - 1);
    }
  }

  /** `normalize_vrm(text)`: `None` counts as the empty string, the text is
      upper-cased, then every whitespace run is deleted. */
  function NormalizeVrm(text: Option<string>): (v: string)
    ensures forall i :: 0 <= i < |v| ==> !IsSpace(v[i]) && !IsLower(v[i])
    ensures |v| <= |text.GetOr("")|
  {
    SubSpaceRuns(Upper(text.GetOr("")))
  }

  /** Normalising is deleting every whitespace character of the upper-cased
      text. */
  lemma NormalizeIsRemoveSpace(text: Option<string>)
    ensures NormalizeVrm(text) == RemoveSpace(Upper(text.GetOr("")))
  {
    SubSpaceRunsIsRemoveSpace(Upper(text.GetOr("")));
  }

  /** Deleting whitespace from a concatenation deletes it from each part. */
  lemma {:induction false} RemoveSpaceAppend(a: string, b: string)
    ensures RemoveSpace(a + b) == RemoveSpace(a) + RemoveSpace(b)
  {
    if a != [] {
      assert (a + b)[1..] == a[1..] + b;
      RemoveSpaceAppend(a[1..], b);
    } else {
      assert a + b == b;
    }
  }

  /** Upper-casing leaves a string without lower-case letters unchanged. */
  lemma {:induction false} UpperFixed(s: string)
    requires forall i :: 0 <= i < |s| ==> !IsLower(s[i])
    ensures Upper(s) == s
  {
    if s != [] {
      UpperFixed(s[1..]);
    }
  }

  /** Removing whitespace leaves a string without whitespace unchanged. */
  lemma {:induction false} RemoveSpaceFixed(s: string)
    requires forall i :: 0 <= i < |s| ==> !IsSpace(s[i])
    ensures RemoveSpace(s) == s
  {
    if s != [] {
      RemoveSpaceFixed(s[1..]);
    }
  }

  /** Normalising an already normalised plate changes nothing. */
  lemma NormalizeIdempotent(text: Option<string>)
    ensures NormalizeVrm(Some(NormalizeVrm(text))) == NormalizeVrm(text)
  {
    var v := NormalizeVrm(text);
    UpperFixed(v);
    RemoveSpaceFixed(v);
    SubSpaceRunsIsRemoveSpace(v);
  }

  /** Removing whitespace yields the empty string exactly when the input is
      all whitespace. */
  lemma {:induction false} RemoveSpaceEmpty(s: string)
    ensures RemoveSpace(s) == [] <==> forall i :: 0 <= i < |s| ==> IsSpace(s[i])
  {
    if s != [] {
      RemoveSpaceEmpty(s[1..]);
      if IsSpace(s[0]) {
        assert forall i :: 1 <= i < |s| ==> s[i] == s[1..][i - 1];
      }
    }
  }

  /** A missing, empty or blank message normalises to the empty string, and
      only those do. */
  lemma NormalizeBlank(text: Option<string>)
    ensures NormalizeVrm(text) == [] <==>
            forall i :: 0 <= i < |text.GetOr("")| ==> IsSpace(text.GetOr("")[i])
  {
    var s := text.GetOr("");
    var u := Upper(s);
    SubSpaceRunsIsRemoveSpace(u);
    RemoveSpaceEmpty(u);
  }

  /** The character class `[A-Z0-9]`. */
  predicate IsVrmChar(c: char) {
    'A' <= c <= 'Z' || '0' <= c <= '9'
  }

  /** What the bot means by a valid plate: 1 to 8 characters, each an
      upper-case ASCII letter or a digit. */
  predicate ValidVrm(s: string) {
    1 <= |s| <= 8 && forall i :: 0 <= i < |s| ==> IsVrmChar(s[i])
  }

  const MinRepeat: nat := 1
  const MaxRepeat: nat := 8

  /** How many characters the greedy `[A-Z0-9]{1,8}` takes at the start of
      `s`: the leading run of class characters, at most `max` of them. */
  function ClassRun(s: string, max: nat): (k: nat)
    ensures k <= max && k <= |s|
    ensures forall i :: 0 <= i < k ==> IsVrmChar(s[i])
    ensures k < max && k < |s| ==> !IsVrmChar(s[k])
  {
    if max == 0 || s == [] || !IsVrmChar(s[0]) then 0
    else 1 + ClassRun(s[1..], max - 1)
  }

  /** Python's `$` without MULTILINE at position `j`: the end of the string,
      or just before a final line feed. */
  predicate EndAt(s: string, j: nat)
    ensures EndAt(s, j) <==> j <= |s| && (s[j..] == [] || s[j..] == ['\n'])
  {
    j == |s| || (j + 1 == |s| && s[j] == '\n')
  }

  /** Backtracking from `k` repetitions down to the minimum, trying `$` after
      each. */
  predicate Backtrack(s: string, k: nat)
    ensures Backtrack(s, k) <==> exists j :: MinRepeat <= j <= k && EndAt(s, j)
  {
    k >= MinRepeat && (EndAt(s, k) || Backtrack(s, k - 1))
  }

  /** `VRM_RE.match(s)` for `^[A-Z0-9]{1,8}$`, as the regex engine decides it. */
  predicate VrmReMatch(s: string)
    ensures VrmReMatch(s) ==> MinRepeat <= |s| <= MaxRepeat + 1
    ensures VrmReMatch(s) ==> forall i :: 0 <= i < |s| - 1 ==> IsVrmChar(s[i])
  {
    BacktrackAt(s, ClassRun(s, MaxRepeat));
    Backtrack(s, ClassRun(s, MaxRepeat))
  }

  /** Backtracking below the greedy count never finds `$` inside the run of
      class characters. */
  lemma {:induction false} BacktrackAt(s: string, k: nat)
    requires k <= |s|
    requires forall i :: 0 <= i < k ==> IsVrmChar(s[i])
    ensures Backtrack(s, k) <==> k >= MinRepeat && EndAt(s, k)
  {
    if k > MinRepeat {
      BacktrackAt(s, k - 1);
      assert IsVrmChar(s[k - 1]);
    }
  }

  /** The pattern accepts exactly a valid plate, or a valid plate followed
      by one line feed (Python's `$` matches before a final newline). */
  lemma VrmReMatchIff(s: string)
    ensures VrmReMatch(s) <==>
            ValidVrm(s) || (|s| >= 1 && s[|s| - 1] == '\n' && ValidVrm(s[..|s| - 1]))
  {
    var k := ClassRun(s, MaxRepeat);
    BacktrackAt(s, k);
    if |s| >= 1 && s[|s| - 1] == '\n' && ValidVrm(s[..|s| - 1]) {
      assert forall i :: 0 <= i < |s| - 1 ==> s[i] == s[..|s| - 1][i];
      assert !IsVrmChar(s[|s| - 1]);
    }
  }

  /** On a string without line feeds, in particular on any normalised text,
      the pattern accepts a string iff it is a valid plate. */
  lemma VrmReMatchNoNewline(s: string)
    requires forall i :: 0 <= i < |s| ==> s[i] != '\n'
    ensures VrmReMatch(s) <==> ValidVrm(s)
  {
    VrmReMatchIff(s);
  }

  /** The bot's check `VRM_RE.match(normalize_vrm(text))` is exactly
      validity of the normalised text. */
  lemma AcceptsNormalized(text: Option<string>)
    ensures VrmReMatch(NormalizeVrm(text)) <==> ValidVrm(NormalizeVrm(text))
  {
    VrmReMatchNoNewline(NormalizeVrm(text));
  }

  /** Missing and empty messages are rejected: the pattern needs at least
      one character. */
  lemma EmptyRejected()
    ensures NormalizeVrm(None) == "" && NormalizeVrm(Some("")) == ""
    ensures !VrmReMatch("")
  {
    assert ClassRun("", MaxRepeat) == 0;
  }
}
