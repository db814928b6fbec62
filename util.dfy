/** The string and path helpers of util/util.h: home-directory expansion,
    splitting on a set of separator characters, the non-empty-line
    filter of the line reader, and the case-insensitive extension test. */
module Util {
  import opened Common

  // ---------------------------------------------------------------------
  // expand_user. The two environment variables are parameters.

  /** A path that starts with '~' must be "~" itself or go on with '/'. */
  predicate WellFormedTilde(path: string)
  {
    |path| == 1 || (|path| > 1 && path[1] == '/')
  }

  /** Replaces a leading '~' by HOME, or by USERPROFILE when HOME is
      unset; any other path is returned as it is. */
  function ExpandUser(path: string, home: Option<string>, userProfile: Option<string>): (r: Result<string>)
    ensures r.Fatal? <==> |path| > 0 && path[0] == '~' && !WellFormedTilde(path)
    ensures |path| == 0 || path[0] != '~' ==> r == Ok(path)
  {
    if |path| > 0 && path[0] == '~' then
      if !WellFormedTilde(path) then Fatal("Attempting to expand malformed path.")
      else if home.Some? then Ok(home.value + path[1..])
      else if userProfile.Some? then Ok(userProfile.value + path[1..])
      else Ok(path)
    else Ok(path)
  }

  /** Only the first character changes: the result is the chosen home
      directory followed by everything after the '~', and it is the path
      unchanged when neither variable is set. */
  lemma ExpandUserReplacesTilde(path: string, home: Option<string>, userProfile: Option<string>)
    requires |path| > 0 && path[0] == '~' && WellFormedTilde(path)
    ensures var r := ExpandUser(path, home, userProfile);
      r.Ok? &&
      (home.Some? ==> r.value[..|home.value|] == home.value && r.value[|home.value|..] == path[1..]) &&
      (home.None? && userProfile.Some? ==>
        r.value[..|userProfile.value|] == userProfile.value && r.value[|userProfile.value|..] == path[1..]) &&
      (home.None? && userProfile.None? ==> r.value == path)
  {
  }

  /** Expanding twice gives the same as once whenever the home directory
      does not itself start with '~' (the line reader expands twice). */
  lemma ExpandUserTwice(path: string, home: Option<string>, userProfile: Option<string>)
    requires ExpandUser(path, home, userProfile).Ok?
    requires home.Some? ==> |home.value| > 0 && home.value[0] != '~'
    requires home.None? && userProfile.Some? ==> |userProfile.value| > 0 && userProfile.value[0] != '~'
    ensures var once := ExpandUser(path, home, userProfile).value;
      ExpandUser(once, home, userProfile) == Ok(once)
  {
  }

  // ---------------------------------------------------------------------
  // SplitStringUsing: boost::split with is_any_of, no token compression.

  /** Splits at every occurrence of any separator character. Empty tokens
      are kept, so the empty string gives one empty token. */
  function Split(s: string, separators: set<char>): (r: seq<string>)
    ensures |r| >= 1
    decreases |s|
  {
    if |s| == 0 then [""]
    else
      var rest := Split(s[1..], separators);
      if s[0] in separators then [""] + rest
      else [[s[0]] + rest[0]] + rest[1..]
  }

  function CountIn(s: string, separators: set<char>): nat
  {
    if |s| == 0 then 0 else (if s[0] in separators then 1 else 0) + CountIn(s[1..], separators)
  }

  /** One more token than separators, and no token holds a separator. */
  lemma {:induction false} SplitShape(s: string, separators: set<char>)
    ensures |Split(s, separators)| == CountIn(s, separators) + 1
    ensures forall t, k :: 0 <= t < |Split(s, separators)| && 0 <= k < |Split(s, separators)[t]| ==>
      Split(s, separators)[t][k] !in separators
    decreases |s|
  {
    if |s| > 0 {
      SplitShape(s[1..], separators);
      var rest := Split(s[1..], separators);
      if s[0] !in separators {
        var r := Split(s, separators);
        assert r[0] == [s[0]] + rest[0];
        forall t, k | 0 <= t < |r| && 0 <= k < |r[t]| ensures r[t][k] !in separators {
          if t == 0 {
            if k > 0 { assert r[0][k] == rest[0][k - 1]; }
          } else {
            assert r[t] == rest[t];
          }
        }
      }
    }
  }

  /** The tokens joined back with a single separator character. */
  function Join(tokens: seq<string>, c: char): string
    requires |tokens| >= 1
  {
    if |tokens| == 1 then tokens[0] else tokens[0] + [c] + Join(tokens[1..], c)
  }

  /** With one separator character, joining the pieces restores the input. */
  lemma {:induction false} JoinSplit(s: string, c: char)
    ensures Join(Split(s, {c}), c) == s
    decreases |s|
  {
    if |s| > 0 {
      JoinSplit(s[1..], c);
      var rest := Split(s[1..], {c});
      if s[0] == c {
        assert Split(s, {c})[1..] == rest;
        assert s == [c] + s[1..];
      } else {
        var r := Split(s, {c});
        if |rest| == 1 {
          assert r == [[s[0]] + rest[0]];
        } else {
          assert r[1..] == rest[1..];
          assert Join(rest, c) == rest[0] + [c] + Join(rest[1..], c);
        }
        assert s == [s[0]] + s[1..];
      }
    }
  }

  /** And splitting a join of separator-free tokens gives the tokens back. */
  lemma {:induction false} SplitJoin(tokens: seq<string>, c: char)
    requires |tokens| >= 1
    requires forall t :: 0 <= t < |tokens| ==> c !in tokens[t]
    ensures Split(Join(tokens, c), {c}) == tokens
    decreases |tokens|, |tokens[0]|
  {
    var head := tokens[0];
    if |head| == 0 {
      if |tokens| > 1 {
        SplitJoin(tokens[1..], c);
        assert Join(tokens, c) == [c] + Join(tokens[1..], c);
        assert Join(tokens, c)[1..] == Join(tokens[1..], c);
        assert tokens == [""] + tokens[1..];
      }
    } else {
      var shorter := [head[1..]] + tokens[1..];
      assert forall t :: 0 <= t < |shorter| ==> c !in shorter[t] by {
        forall t | 0 <= t < |shorter| ensures c !in shorter[t] {
          if t == 0 {
            assert forall k :: 0 <= k < |head[1..]| ==> head[1..][k] == head[k + 1];
          } else {
            assert shorter[t] == tokens[t];
          }
        }
      }
      SplitJoin(shorter, c);
      assert shorter[1..] == tokens[1..];
      assert Join(tokens, c) == [head[0]] + Join(shorter, c);
      assert Join(tokens, c)[1..] == Join(shorter, c);
      assert head[0] != c by { assert head[0] == tokens[0][0]; }
      var rest := Split(Join(shorter, c), {c});
      assert rest == shorter;
      assert [head[0]] + head[1..] == head;
      assert [[head[0]] + rest[0]] + rest[1..] == tokens;
    }
  }

  // ---------------------------------------------------------------------
  // The line filter of ReadLinesFromFileIntoVectorOrDie.

  /** The pieces that are not empty, in their order. */
  function NonEmpty(lines: seq<string>): (r: seq<string>)
    ensures |r| <= |lines|
    ensures forall k :: 0 <= k < |r| ==> |r[k]| > 0
  {
    if |lines| == 0 then []
    else if |lines[0]| == 0 then NonEmpty(lines[1..])
    else [lines[0]] + NonEmpty(lines[1..])
  }

  function CountEmpty(lines: seq<string>): nat
  {
    if |lines| == 0 then 0 else (if |lines[0]| == 0 then 1 else 0) + CountEmpty(lines[1..])
  }

  /** Exactly the non-empty lines are kept, and only the empty ones go. */
  lemma {:induction false} NonEmptyKeepsExactly(lines: seq<string>)
    ensures forall x :: x in NonEmpty(lines) <==> x in lines && |x| > 0
    ensures |NonEmpty(lines)| + CountEmpty(lines) == |lines|
  {
    if |lines| > 0 {
      NonEmptyKeepsExactly(lines[1..]);
      assert lines == [lines[0]] + lines[1..];
    }
  }

  /** The whole reader over a file system given as a map from path to
      contents: the path is expanded (once here, once more inside the
      whole-file reader), a missing file is fatal, and the contents are
      split on '\n' with empty lines dropped. */
  function ReadLinesFromFile(files: map<string, string>, filename: string,
                             home: Option<string>, userProfile: Option<string>): (r: Result<seq<string>>)
    ensures r.Ok? ==> forall k :: 0 <= k < |r.value| ==> |r.value[k]| > 0 && '\n' !in r.value[k]
  {
    match ExpandUser(filename, home, userProfile)
    case Fatal(why) => Fatal(why)
    case Ok(once) =>
      match ExpandUser(once, home, userProfile)
      case Fatal(why) => Fatal(why)
      case Ok(path) =>
        if path !in files then Fatal("Error opening " + filename)
        else
          var lines := Split(files[path], {'\n'});
          SplitShape(files[path], {'\n'});
          NonEmptyKeepsExactly(lines);
          var kept := NonEmpty(lines);
          assert forall k :: 0 <= k < |kept| ==> kept[k] in lines;
          Ok(kept)
  }

  // ---------------------------------------------------------------------
  // extensionCheck.

  /** boost::to_lower_copy in the classic locale: only 'A'..'Z' change. */
  function ToLower(s: string): (r: string)
    ensures |r| == |s|
    ensures forall k :: 0 <= k < |s| ==> r[k] == LowerChar(s[k])
  {
    if |s| == 0 then [] else [LowerChar(s[0])] + ToLower(s[1..])
  }

  function LowerChar(c: char): char
  {
    if 'A' <= c <= 'Z' then (c as int - 'A' as int + 'a' as int) as char else c
  }

  predicate HasUpper(s: string)
  {
    exists k :: 0 <= k < |s| && 'A' <= s[k] <= 'Z'
  }

  /** True iff the lower-cased query is a member of the set. */
  function ExtensionCheck(extension: string, extensionList: set<string>): (r: bool)
    ensures r ==> !HasUpper(ToLower(extension)) && ToLower(extension) in extensionList
  {
    ToLower(extension) in extensionList
  }

  /** Only the query is lower-cased: a lower-case query matches exactly
      the members it equals, an upper-case member never matches, and
      queries differing only in case are treated alike. */
  lemma ExtensionCheckCase(extension: string, other: string, extensionList: set<string>)
    ensures !HasUpper(extension) ==> (ExtensionCheck(extension, extensionList) <==> extension in extensionList)
    ensures ToLower(extension) == ToLower(other) ==>
      ExtensionCheck(extension, extensionList) == ExtensionCheck(other, extensionList)
    ensures HasUpper(extension) && extensionList == {extension} ==> !ExtensionCheck(other, extensionList)
  {
    if !HasUpper(extension) {
      assert ToLower(extension) == extension;
    }
    if HasUpper(extension) && extensionList == {extension} {
      assert forall j :: 0 <= j < |other| ==> !('A' <= ToLower(other)[j] <= 'Z');
      assert !HasUpper(ToLower(other));
    }
  }
}
