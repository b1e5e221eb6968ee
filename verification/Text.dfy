/** The few searches and trims the text protocols are read with. */
module Text {

  /** Where `c` first stands in `s`, or the length of `s`. */
  function Find(s: string, c: char): (at: nat)
    ensures at <= |s|
    ensures at < |s| ==> s[at] == c
    ensures forall k :: 0 <= k < at ==> s[k] != c
  {
    if s == [] || s[0] == c then 0 else 1 + Find(s[1..], c)
  }

  /** Where `c` last stands in `s`, or the length of `s`. */
  function FindLast(s: string, c: char): (at: nat)
    ensures at <= |s|
    ensures at < |s| ==> s[at] == c && forall k :: at < k < |s| ==> s[k] != c
    ensures at == |s| ==> forall k :: 0 <= k < |s| ==> s[k] != c
  {
    if s == [] then 0
    else if s[|s| - 1] == c then |s| - 1
    else
      var at := FindLast(s[..|s| - 1], c);
      if at == |s| - 1 then |s| else at
  }

  predicate CrlfAt(s: string, k: nat)
  {
    k + 1 < |s| && s[k] == '\r' && s[k + 1] == '\n'
  }

  /** Where the first CRLF of `s` starts, or the length of `s`. */
  function FindCrlf(s: string): (at: nat)
    ensures at <= |s|
    ensures at < |s| ==> CrlfAt(s, at)
    ensures forall k :: 0 <= k < at ==> !CrlfAt(s, k)
  {
    if s == [] || CrlfAt(s, 0) then 0
    else
      var at := FindCrlf(s[1..]);
      assert forall k :: 1 <= k < |s| ==> CrlfAt(s, k) == CrlfAt(s[1..], k - 1);
      1 + at
  }

  predicate StartsWith(s: string, prefix: string)
  {
    prefix <= s
  }

  predicate EndsWith(s: string, suffix: string)
  {
    |suffix| <= |s| && s[|s| - |suffix|..] == suffix
  }

  predicate Contains(s: string, needle: string)
  {
    StartsWith(s, needle) || (s != [] && Contains(s[1..], needle))
  }

  predicate Blank(c: char)
  {
    c == ' ' || c == '\t'
  }

  function TrimLeft(s: string): string
  {
    if s != [] && Blank(s[0]) then TrimLeft(s[1..]) else s
  }

  function TrimRight(s: string): string
  {
    if s != [] && Blank(s[|s| - 1]) then TrimRight(s[..|s| - 1]) else s
  }

  function Trim(s: string): string
  {
    TrimRight(TrimLeft(s))
  }

  function LowerChar(c: char): char
  {
    if 'A' <= c <= 'Z' then (c as int + 32) as char else c
  }

  function ToLower(s: string): (t: string)
    ensures |t| == |s| && forall i :: 0 <= i < |s| ==> t[i] == LowerChar(s[i])
  {
    seq(|s|, i requires 0 <= i < |s| => LowerChar(s[i]))
  }

  /** The same text but for the case of its ASCII letters. */
  predicate SameUpToCase(a: string, b: string)
  {
    |a| == |b| && forall i :: 0 <= i < |a| ==> SameLetter(a[i], b[i])
  }

  predicate SameLetter(a: char, b: char)
  {
    || a == b
    || ('a' <= a <= 'z' && a as int == b as int + 32)
    || ('a' <= b <= 'z' && b as int == a as int + 32)
  }

  /** Folding to lower case identifies exactly what differs in case alone. */
  lemma LowerMeansSameUpToCase(a: string, b: string)
    ensures ToLower(a) == ToLower(b) <==> SameUpToCase(a, b)
  {
    forall i | 0 <= i < |a| && i < |b| ensures LowerChar(a[i]) == LowerChar(b[i]) <==> SameLetter(a[i], b[i]) {
      LowerMeansSameLetter(a[i], b[i]);
    }
    if |a| == |b| {
      assert ToLower(a) == ToLower(b) <==> forall i :: 0 <= i < |a| ==> ToLower(a)[i] == ToLower(b)[i];
    }
  }

  lemma LowerKeepsLower(s: string)
    requires forall i :: 0 <= i < |s| ==> !('A' <= s[i] <= 'Z')
    ensures ToLower(s) == s
  {
  }

  lemma LowerMeansSameLetter(a: char, b: char)
    ensures LowerChar(a) == LowerChar(b) <==> SameLetter(a, b)
  {
  }

  // --- text with blanks around it ---

  predicate Blanks(s: string)
  {
    forall k :: 0 <= k < |s| ==> s[k] == ' ' || s[k] == '\t'
  }

  /** Neither starts nor ends with a blank, and stays on its line. */
  predicate Solid(s: string)
  {
    && '\n' !in s
    && (s != "" ==> s[0] != ' ' && s[0] != '\t' && s[|s| - 1] != ' ' && s[|s| - 1] != '\t')
  }

  lemma {:induction false} LeftBlanksGo(blanks: string, rest: string)
    requires Blanks(blanks) && (rest != "" ==> rest[0] != ' ' && rest[0] != '\t')
    ensures TrimLeft(blanks + rest) == rest
  {
    if blanks == "" {
      assert blanks + rest == rest;
    } else {
      assert (blanks + rest)[0] == blanks[0] && (blanks + rest)[1..] == blanks[1..] + rest;
      LeftBlanksGo(blanks[1..], rest);
    }
  }

  lemma {:induction false} RightBlanksGo(rest: string, blanks: string)
    requires Blanks(blanks) && (rest != "" ==> rest[|rest| - 1] != ' ' && rest[|rest| - 1] != '\t')
    ensures TrimRight(rest + blanks) == rest
    decreases |blanks|
  {
    if blanks == "" {
      assert rest + blanks == rest;
    } else {
      var front := blanks[..|blanks| - 1];
      assert (rest + blanks)[..|rest + blanks| - 1] == rest + front;
      assert (rest + blanks)[|rest + blanks| - 1] == blanks[|blanks| - 1];
      RightBlanksGo(rest, front);
    }
  }

  lemma TrimmedIs(before: string, s: string, after: string)
    requires Blanks(before) && Blanks(after) && Solid(s)
    ensures Trim(before + (s + after)) == s
  {
    hide TrimLeft, TrimRight;
    if s == "" {
      assert before + (s + after) == (before + after) + "";
      assert Blanks(before + after);
      LeftBlanksGo(before + after, "");
      RightBlanksGo("", "");
      assert "" + "" == "";
    } else {
      LeftBlanksGo(before, s + after);
      RightBlanksGo(s, after);
    }
  }

  // --- where a text divides ---

  lemma FindAt(s: string, c: char, at: nat)
    requires at < |s| && s[at] == c && forall k :: 0 <= k < at ==> s[k] != c
    ensures Find(s, c) == at
  {
    hide Find;
  }

  lemma FindNone(s: string, c: char)
    requires forall k :: 0 <= k < |s| ==> s[k] != c
    ensures Find(s, c) == |s|
  {
    hide Find;
  }

  /** A text is divided at the first mark in it. */
  lemma DividedAt(front: string, c: char, behind: string)
    requires forall k :: 0 <= k < |front| ==> front[k] != c
    ensures var s := front + ([c] + behind);
            Find(s, c) == |front| && |front| < |s| && s[..|front|] == front && s[|front| + 1..] == behind
  {
    hide Find;
    var s := front + ([c] + behind);
    assert s[|front|] == c && forall k :: 0 <= k < |front| ==> s[k] == front[k];
    FindAt(s, c, |front|);
  }
}
