/** Classification of compiler diagnostics into warnings and errors, and the exit
    code the compile script derives from them (bin/compile.ts). */
module Diagnostics {
  import opened Strings

  const WarningToken: string := "Warning: "

  predicate IsDigit(c: char) {
    '0' <= c <= '9'
  }

  predicate AllDigits(s: string) {
    forall i :: 0 <= i < |s| ==> IsDigit(s[i])
  }

  /** The characters JavaScript's regular-expression `.` does not match. */
  predicate IsLineTerminator(c: char) {
    c == '\n' || c == '\r' || c == '\U{2028}' || c == '\U{2029}'
  }

  predicate OnOneLine(s: string) {
    forall i :: 0 <= i < |s| ==> !IsLineTerminator(s[i])
  }

  // ---------------------------------------------------------------------------
  // The pattern `^(.*:[0-9]*:[0-9]* )?Warning: `, read as a language

  /** `s` matches `.*:[0-9]*:[0-9]*` in full: some split into text, ':',
      digits, ':', digits. */
  ghost predicate LocationPattern(s: string) {
    exists a, b :: 0 <= a < b < |s| && s[a] == ':' && s[b] == ':' &&
      OnOneLine(s[..a]) && AllDigits(s[a + 1..b]) && AllDigits(s[b + 1..])
  }

  /** `m` has a match of the warning pattern at its start: the optional location
      group is either absent or ends at a space at some position `c`. */
  ghost predicate WarningPattern(m: string) {
    || StartsWith(m, WarningToken)
    || exists c :: 0 <= c < |m| && PatternWarningAt(m, c)
  }

  /** The location group of the pattern ends with the space at `c`. */
  ghost predicate PatternWarningAt(m: string, c: nat)
    requires c < |m|
  {
    m[c] == ' ' && LocationPattern(m[..c]) && StartsWith(m[c + 1..], WarningToken)
  }

  // ---------------------------------------------------------------------------
  // The classifier

  /** Start of the longest run of digits that ends `s`. */
  function DigitRunStart(s: string): (i: nat)
    ensures i <= |s|
    ensures AllDigits(s[i..])
    ensures i == 0 || !IsDigit(s[i - 1])
    decreases |s|
  {
    if |s| == 0 || !IsDigit(s[|s| - 1]) then |s|
    else
      var i := DigitRunStart(s[..|s| - 1]);
      assert s[i..] == s[..|s| - 1][i..] + [s[|s| - 1]];
      i
  }

  /** `s` ends in `:<digits>:<digits>` preceded by text on one line; since ':' is not
      a digit, both digit runs are the maximal ones, so trimming them is enough. */
  predicate HasLocation(s: string) {
    var b := DigitRunStart(s);
    && b > 0 && s[b - 1] == ':'
    && var a := DigitRunStart(s[..b - 1]);
    && a > 0 && s[a - 1] == ':' && OnOneLine(s[..a - 1])
  }

  /** `msg.match(/^(.*:[0-9]*:[0-9]* )?Warning: /)` is truthy. */
  predicate IsWarning(m: string) {
    || StartsWith(m, WarningToken)
    || exists c | 0 <= c < |m| :: LocatedWarningAt(m, c)
  }

  /** A located warning whose location ends with the space at `c`. */
  predicate LocatedWarningAt(m: string, c: nat)
    requires c < |m|
  {
    m[c] == ' ' && HasLocation(m[..c]) && StartsWith(m[c + 1..], WarningToken)
  }

  /** Any position that ends a digit run and follows a non-digit is where
      `DigitRunStart` stops. */
  lemma DigitRunStartUnique(s: string, k: nat)
    requires 0 < k <= |s|
    requires !IsDigit(s[k - 1]) && AllDigits(s[k..])
    ensures DigitRunStart(s) == k
  {
  }

  lemma HasLocationMatchesPattern(s: string)
    ensures HasLocation(s) <==> LocationPattern(s)
  {
    if HasLocation(s) {
      HasLocationGivesPattern(s);
    }
    if LocationPattern(s) {
      PatternGivesHasLocation(s);
    }
  }

  lemma HasLocationGivesPattern(s: string)
    requires HasLocation(s)
    ensures LocationPattern(s)
  {
    var b := DigitRunStart(s);
    var t := s[..b - 1];
    var a := DigitRunStart(t);
    assert t[..a - 1] == s[..a - 1];
    assert t[a..] == s[a..b - 1];
    assert s[a - 1] == ':' && s[b - 1] == ':';
    assert OnOneLine(s[..a - 1]) && AllDigits(s[a..b - 1]) && AllDigits(s[b..]);
  }

  lemma PatternGivesHasLocation(s: string)
    requires LocationPattern(s)
    ensures HasLocation(s)
  {
    var a, b :| 0 <= a < b < |s| && s[a] == ':' && s[b] == ':' &&
      OnOneLine(s[..a]) && AllDigits(s[a + 1..b]) && AllDigits(s[b + 1..]);
    var t := s[..b];
    assert t[a + 1..] == s[a + 1..b];
    assert t[..a] == s[..a];
    LocationAt(s, a, b);
  }

  /** The two maximal digit runs of `s` start right after the colons at `a` and `b`. */
  lemma LocationAt(s: string, a: nat, b: nat)
    requires a < b < |s| && s[a] == ':' && s[b] == ':'
    requires AllDigits(s[..b][a + 1..]) && AllDigits(s[b + 1..]) && OnOneLine(s[..b][..a])
    ensures HasLocation(s)
  {
    var t := s[..b];
    DigitRunStartUnique(s, b + 1);
    DigitRunStartUnique(t, a + 1);
    var b1 := DigitRunStart(s);
    assert s[..b1 - 1] == t;
    var a1 := DigitRunStart(t);
    assert t[a1 - 1] == ':' && OnOneLine(t[..a1 - 1]);
  }

  /** The classifier accepts exactly the messages the regular expression matches. */
  lemma {:induction false} IsWarningMatchesPattern(m: string)
    ensures IsWarning(m) <==> WarningPattern(m)
  {
    if !StartsWith(m, WarningToken) {
      if IsWarning(m) {
        var c :| 0 <= c < |m| && LocatedWarningAt(m, c);
        HasLocationMatchesPattern(m[..c]);
        assert PatternWarningAt(m, c);
      }
      if WarningPattern(m) {
        var c :| 0 <= c < |m| && PatternWarningAt(m, c);
        HasLocationMatchesPattern(m[..c]);
        assert LocatedWarningAt(m, c);
      }
    }
  }

  /** A message without the letter 'W' cannot be a warning. */
  lemma NoWarningWithoutW(m: string)
    requires 'W' !in m
    ensures !IsWarning(m)
  {
    if |m| >= |WarningToken| {
      assert m[..|WarningToken|][0] == m[0];
    }
    forall c | 0 <= c < |m| ensures !LocatedWarningAt(m, c) {
      if c + 1 < |m| {
        assert m[c + 1..][0] == m[c + 1];
      }
    }
  }

  /** `<file>:<line>:<column>` is a location whenever the file name is on one line
      and line and column are digits (possibly none). */
  lemma LocationOf(file: string, line: string, column: string)
    requires OnOneLine(file) && AllDigits(line) && AllDigits(column)
    ensures HasLocation(file + ":" + line + ":" + column)
  {
    var s := file + ":" + line + ":" + column;
    var a, b := |file|, |file| + 1 + |line|;
    assert s[..b] == file + ":" + line;
    assert s[..b][a + 1..] == line && s[b + 1..] == column && s[..b][..a] == file;
    LocationAt(s, a, b);
  }

  /** A message `<location> Warning: <text>` is classified as a warning. */
  lemma LocatedWarningOf(loc: string, text: string)
    requires HasLocation(loc)
    ensures IsWarning(loc + " " + WarningToken + text)
  {
    var m := loc + " " + WarningToken + text;
    var c := |loc|;
    assert m[..c] == loc;
    assert m[c + 1..] == WarningToken + text;
    StartsWithConcat(WarningToken, text);
    assert LocatedWarningAt(m, c);
  }

  /** A located warning from the compiler is classified as a warning. */
  lemma LocatedWarningExample()
    ensures IsWarning("foo.sol:3:5 Warning: unused variable")
  {
    ExampleParts();
    LocationOf("foo.sol", "3", "5");
    LocatedWarningOf("foo.sol:3:5", "unused variable");
  }

  lemma ExampleParts()
    ensures "foo.sol" + ":" + "3" + ":" + "5" == "foo.sol:3:5"
    ensures "foo.sol:3:5" + " " + WarningToken + "unused variable" == "foo.sol:3:5 Warning: unused variable"
  {
  }

  /** A located error from the compiler is classified as an error. */
  lemma LocatedErrorExample()
    ensures !IsWarning("foo.sol:3:5 Error: type mismatch")
  {
    NoWarningWithoutW("foo.sol:3:5 Error: type mismatch");
  }

  // ---------------------------------------------------------------------------
  // Partition into warnings and errors

  /** The messages whose classification is `warning`, in their original order. */
  function Select(ms: seq<string>, warning: bool): (r: seq<string>)
    ensures |r| <= |ms|
    ensures forall i :: 0 <= i < |r| ==> IsWarning(r[i]) == warning
    ensures forall i :: 0 <= i < |r| ==> r[i] in ms
    decreases |ms|
  {
    if |ms| == 0 then []
    else
      var last := ms[|ms| - 1];
      var front := Select(ms[..|ms| - 1], warning);
      if IsWarning(last) == warning then front + [last] else front
  }

  /** Selection distributes over concatenation: order is kept within each class. */
  lemma {:induction false} SelectAppend(a: seq<string>, b: seq<string>, warning: bool)
    ensures Select(a + b, warning) == Select(a, warning) + Select(b, warning)
    decreases |b|
  {
    if |b| == 0 {
      assert a + b == a;
    } else {
      var b' := b[..|b| - 1];
      assert (a + b)[..|a + b| - 1] == a + b';
      SelectAppend(a, b', warning);
    }
  }

  /** The loop of bin/compile.ts:121-128: every message goes to exactly one list. */
  method Classify(messages: seq<string>) returns (warnings: seq<string>, errors: seq<string>)
    ensures warnings == Select(messages, true)
    ensures errors == Select(messages, false)
  {
    warnings, errors := [], [];
    for i := 0 to |messages|
      invariant warnings == Select(messages[..i], true)
      invariant errors == Select(messages[..i], false)
    {
      assert messages[..i + 1][..i] == messages[..i];
      if IsWarning(messages[i]) {
        warnings := warnings + [messages[i]];
      } else {
        errors := errors + [messages[i]];
      }
    }
    assert messages[..|messages|] == messages;
  }

  /** Warnings and errors together are the messages, each exactly once. */
  lemma {:induction false} SelectPartitions(ms: seq<string>)
    ensures multiset(Select(ms, true)) + multiset(Select(ms, false)) == multiset(ms)
    ensures |Select(ms, true)| + |Select(ms, false)| == |ms|
    decreases |ms|
  {
    if |ms| > 0 {
      var front := ms[..|ms| - 1];
      var last := ms[|ms| - 1];
      SelectPartitions(front);
      SelectSnoc(ms, true);
      SelectSnoc(ms, false);
      SnocMultiset(ms);
    }
  }

  /** Selecting from a non-empty list: the front's selection, then the last
      message when its class is the one selected. */
  lemma SelectSnoc(ms: seq<string>, warning: bool)
    requires |ms| > 0
    ensures var front, last := ms[..|ms| - 1], ms[|ms| - 1];
      Select(ms, warning) == if IsWarning(last) == warning then Select(front, warning) + [last] else Select(front, warning)
  {
  }

  lemma SnocMultiset<T>(s: seq<T>)
    requires |s| > 0
    ensures multiset(s) == multiset(s[..|s| - 1]) + multiset{s[|s| - 1]}
  {
    assert s == s[..|s| - 1] + [s[|s| - 1]];
  }

  /** A message is in the list matching its classification and not in the other. */
  lemma {:induction false} SelectMembership(ms: seq<string>, m: string)
    requires m in ms
    ensures m in Select(ms, IsWarning(m))
    ensures m !in Select(ms, !IsWarning(m))
    decreases |ms|
  {
    var front := ms[..|ms| - 1];
    if m in front {
      SelectMembership(front, m);
    } else {
      assert m == ms[|ms| - 1];
      assert ms == front + [m];
    }
  }

  /** bin/compile.ts:158-165: the script exits with 1 when there are errors, else 0. */
  function ExitCode(errors: seq<string>): (code: int)
    ensures code == 0 || code == 1
    ensures code == 0 <==> errors == []
  {
    if |errors| > 0 then 1 else 0
  }

  /** The run succeeds iff every diagnostic is a warning: warnings alone never fail it. */
  lemma {:induction false} ExitZeroIffAllWarnings(ms: seq<string>)
    ensures ExitCode(Select(ms, false)) == 0 <==> forall i :: 0 <= i < |ms| ==> IsWarning(ms[i])
    decreases |ms|
  {
    if |ms| > 0 {
      var front := ms[..|ms| - 1];
      ExitZeroIffAllWarnings(front);
      if forall i :: 0 <= i < |front| ==> IsWarning(front[i]) {
        if IsWarning(ms[|ms| - 1]) {
          forall i | 0 <= i < |ms| ensures IsWarning(ms[i]) {
            if i < |front| {
              assert ms[i] == front[i];
            }
          }
        }
      } else {
        var i :| 0 <= i < |front| && !IsWarning(front[i]);
        assert ms[i] == front[i];
      }
    }
  }
}
