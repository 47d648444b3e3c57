/** The command helpers: placeholder substitution, the special-command test,
    the price calculation and the abstract trace of what is typed into the
    game window. */
module Utils {
  import opened Common

  /** The placeholder that command templates use for the buyer's Steam id. */
  const SteamIdPlaceholder: string := "{steam_id}"

  // ---------------------------------------------------------------------------
  // Placeholder substitution
  // ---------------------------------------------------------------------------

  /** Rust's `str::replace`: every occurrence of `pat` found by a left-to-right
      scan is replaced by `rep`; a match is never re-scanned, so occurrences
      do not overlap. */
  function ReplaceAll(s: string, pat: string, rep: string): (r: string)
    requires |pat| > 0
    ensures |rep| == |pat| ==> |r| == |s|
    decreases |s|
  {
    if |s| < |pat| then s
    else if s[..|pat|] == pat then
      assert OccursAt(s, pat, 0);
      rep + ReplaceAll(s[|pat|..], pat, rep)
    else
      OccursShift(s, pat);
      [s[0]] + ReplaceAll(s[1..], pat, rep)
  }

  /** A string without `pat` comes back unchanged. */
  lemma {:induction false} ReplaceWithoutPattern(s: string, pat: string, rep: string)
    requires |pat| > 0 && !IsSubstring(pat, s)
    ensures ReplaceAll(s, pat, rep) == s
    decreases |s|
  {
    if |s| >= |pat| {
      assert !OccursAt(s, pat, 0);
      OccursShift(s, pat);
      ReplaceWithoutPattern(s[1..], pat, rep);
    }
  }

  /** While the output consists only of characters of `pat`, it is a verbatim
      copy of the input (the replacement starts with a character outside `pat`). */
  lemma {:induction false} ReplaceCopiesPrefix(s: string, pat: string, rep: string, k: nat)
    requires |pat| > 0 && |rep| > 0 && rep[0] !in pat
    requires k <= |ReplaceAll(s, pat, rep)|
    requires forall j :: 0 <= j < k ==> ReplaceAll(s, pat, rep)[j] in pat
    ensures k <= |s|
    ensures forall j :: 0 <= j < k ==> ReplaceAll(s, pat, rep)[j] == s[j]
    decreases |s|
  {
    if |s| < |pat| || k == 0 {
    } else if s[..|pat|] == pat {
      ReplaceStartsWithReplacement(s, pat, rep);
      assert false;
    } else {
      var r := ReplaceAll(s, pat, rep);
      var t := ReplaceAll(s[1..], pat, rep);
      assert r == [s[0]] + t;
      forall j | 0 <= j < k - 1
        ensures t[j] in pat
      {
        assert t[j] == r[j + 1];
      }
      ReplaceCopiesPrefix(s[1..], pat, rep, k - 1);
      forall j | 0 <= j < k
        ensures r[j] == s[j]
      {
        if j > 0 {
          assert r[j] == t[j - 1];
        }
      }
    }
  }

  lemma ReplaceStartsWithReplacement(s: string, pat: string, rep: string)
    requires |pat| > 0 && |rep| > 0 && |s| >= |pat| && s[..|pat|] == pat
    ensures |ReplaceAll(s, pat, rep)| > 0 && ReplaceAll(s, pat, rep)[0] == rep[0]
  {
    assert ReplaceAll(s, pat, rep) == rep + ReplaceAll(s[|pat|..], pat, rep);
  }

  /** Prepending a replacement that shares no character with `pat` creates
      no occurrence of `pat`. */
  lemma NoPatternAfterReplacement(rep: string, t: string, pat: string)
    requires |pat| > 0
    requires forall c :: c in rep ==> c !in pat
    requires !IsSubstring(pat, t)
    ensures !IsSubstring(pat, rep + t)
  {
    var r := rep + t;
    forall k
      ensures !OccursAt(r, pat, k)
    {
      if 0 <= k < |rep| && k + |pat| <= |r| {
        assert r[k..k + |pat|][0] == rep[k];
        assert rep[k] in rep;
        assert pat[0] in pat;
      } else if |rep| <= k && k + |pat| <= |r| {
        assert r[k..k + |pat|] == t[k - |rep|..k - |rep| + |pat|];
        assert !OccursAt(t, pat, k - |rep|);
      }
    }
  }

  /** If the output after an unmatched first character starts with `pat`,
      then so does the input. */
  lemma CopiedCharMatch(s: string, pat: string, rep: string)
    requires |pat| > 0 && |rep| > 0 && |s| >= |pat|
    requires forall c :: c in rep ==> c !in pat
    requires |pat| <= 1 + |ReplaceAll(s[1..], pat, rep)|
    requires ([s[0]] + ReplaceAll(s[1..], pat, rep))[..|pat|] == pat
    ensures s[..|pat|] == pat
  {
    var t := ReplaceAll(s[1..], pat, rep);
    var r := [s[0]] + t;
    var m := |pat| - 1;
    forall j | 0 <= j < m
      ensures t[j] in pat
    {
      assert t[j] == r[j + 1] == pat[j + 1];
    }
    assert rep[0] in rep;
    ReplaceCopiesPrefix(s[1..], pat, rep, m);
    forall j | 0 <= j < |pat|
      ensures s[j] == pat[j]
    {
      if j > 0 {
        assert s[j] == s[1..][j - 1] == t[j - 1] == r[j];
      }
    }
  }

  /** Copying an unmatched first character creates no occurrence of `pat`. */
  lemma {:induction false} NoPatternAfterCopiedChar(s: string, pat: string, rep: string)
    requires |pat| > 0 && |rep| > 0 && |s| >= |pat|
    requires forall c :: c in rep ==> c !in pat
    requires s[..|pat|] != pat
    requires !IsSubstring(pat, ReplaceAll(s[1..], pat, rep))
    ensures !IsSubstring(pat, [s[0]] + ReplaceAll(s[1..], pat, rep))
  {
    var t := ReplaceAll(s[1..], pat, rep);
    var r := [s[0]] + t;
    forall k
      ensures !OccursAt(r, pat, k)
    {
      if 1 <= k && k + |pat| <= |r| {
        assert r[k..k + |pat|] == t[k - 1..k - 1 + |pat|];
        assert !OccursAt(t, pat, k - 1);
      } else if k == 0 && |pat| <= |r| && r[..|pat|] == pat {
        CopiedCharMatch(s, pat, rep);
      }
    }
  }

  /** When the replacement is non-empty and shares no character with the
      pattern, no occurrence of the pattern survives the replacement. */
  lemma {:induction false} ReplaceLeavesNoPattern(s: string, pat: string, rep: string)
    requires |pat| > 0 && |rep| > 0
    requires forall c :: c in rep ==> c !in pat
    ensures !IsSubstring(pat, ReplaceAll(s, pat, rep))
    decreases |s|
  {
    if |s| < |pat| {
      assert forall k :: !OccursAt(s, pat, k);
    } else if s[..|pat|] == pat {
      ReplaceLeavesNoPattern(s[|pat|..], pat, rep);
      NoPatternAfterReplacement(rep, ReplaceAll(s[|pat|..], pat, rep), pat);
    } else {
      ReplaceLeavesNoPattern(s[1..], pat, rep);
      NoPatternAfterCopiedChar(s, pat, rep);
    }
  }

  /** The scan's step: when the leftmost occurrence of `pat` starts at `k`,
      the text before it is copied, that occurrence becomes `rep`, and the
      scan resumes right after it. Together with `ReplaceWithoutPattern`
      (no occurrence, no change) this determines the result. */
  lemma {:induction false} ReplaceLeftmost(s: string, pat: string, rep: string, k: nat)
    requires |pat| > 0 && OccursAt(s, pat, k)
    requires NoneBefore(s, pat, k)
    ensures ReplaceAll(s, pat, rep) == s[..k] + rep + ReplaceAll(s[k + |pat|..], pat, rep)
    decreases k, 1
  {
    if k == 0 {
      ReplaceStepMatched(s, pat, rep);
    } else {
      ReplaceLeftmostLater(s, pat, rep, k);
    }
  }

  /** The case of `ReplaceLeftmost` where the first character is copied. */
  lemma {:induction false} ReplaceLeftmostLater(s: string, pat: string, rep: string, k: nat)
    requires |pat| > 0 && k > 0 && OccursAt(s, pat, k)
    requires NoneBefore(s, pat, k)
    ensures ReplaceAll(s, pat, rep) == s[..k] + rep + ReplaceAll(s[k + |pat|..], pat, rep)
    decreases k, 0
  {
    LeftmostShift(s, pat, k);
    ReplaceLeftmost(s[1..], pat, rep, k - 1);
    ReplaceUnmatchedThenLeftmost(s, pat, rep, k);
  }

  ghost predicate NoneBefore(s: string, pat: string, k: int)
  {
    forall j :: 0 <= j < k ==> !OccursAt(s, pat, j)
  }

  /** Dropping an unmatched first character moves the leftmost occurrence
      one place to the left. */
  lemma LeftmostShift(s: string, pat: string, k: nat)
    requires |pat| > 0 && k > 0 && OccursAt(s, pat, k)
    requires NoneBefore(s, pat, k)
    ensures s[..|pat|] != pat
    ensures OccursAt(s[1..], pat, k - 1)
    ensures NoneBefore(s[1..], pat, k - 1)
  {
    assert !OccursAt(s, pat, 0);
    OccursShift(s, pat);
  }

  lemma ReplaceUnmatchedThenLeftmost(s: string, pat: string, rep: string, k: nat)
    requires 0 < |pat| && 0 < k && k + |pat| <= |s| && s[..|pat|] != pat
    requires ReplaceAll(s[1..], pat, rep) == s[1..][..k - 1] + rep + ReplaceAll(s[1..][k - 1 + |pat|..], pat, rep)
    ensures ReplaceAll(s, pat, rep) == s[..k] + rep + ReplaceAll(s[k + |pat|..], pat, rep)
  {
    ReplaceStepUnmatched(s, pat, rep);
    assert s[1..][k - 1 + |pat|..] == s[k + |pat|..];
    CopiedPrefix(s, k, rep, ReplaceAll(s, pat, rep), ReplaceAll(s[1..], pat, rep), ReplaceAll(s[k + |pat|..], pat, rep));
  }

  /** Putting back the first character of `s` in front of a copy of the
      next `k - 1` characters gives a copy of the first `k`. */
  lemma CopiedPrefix(s: string, k: nat, rep: string, r: string, rt: string, x: string)
    requires 0 < k <= |s|
    requires r == [s[0]] + rt && rt == s[1..][..k - 1] + rep + x
    ensures r == s[..k] + rep + x
  {
    assert s[..k] == [s[0]] + s[1..][..k - 1];
  }

  lemma ReplaceStepMatched(s: string, pat: string, rep: string)
    requires |pat| > 0 && StartsWith(s, pat)
    ensures ReplaceAll(s, pat, rep) == rep + ReplaceAll(s[|pat|..], pat, rep)
  {
  }

  lemma ReplaceStepUnmatched(s: string, pat: string, rep: string)
    requires 0 < |pat| <= |s| && s[..|pat|] != pat
    ensures ReplaceAll(s, pat, rep) == [s[0]] + ReplaceAll(s[1..], pat, rep)
  {
  }

  /** `substitute_steam_id_in_commands`: each template with every `{steam_id}`
      replaced by the Steam id, same length and same order. */
  function SubstituteSteamId(commands: seq<string>, steamId: string): (r: seq<string>)
    ensures |r| == |commands|
    ensures forall i :: 0 <= i < |r| ==> r[i] == ReplaceAll(commands[i], SteamIdPlaceholder, steamId)
    ensures forall i :: 0 <= i < |r| && !IsSubstring(SteamIdPlaceholder, commands[i]) ==> r[i] == commands[i]
    decreases |commands|
  {
    if |commands| == 0 then []
    else
      var r := [ReplaceAll(commands[0], SteamIdPlaceholder, steamId)] + SubstituteSteamId(commands[1..], steamId);
      if Contains(commands[0], SteamIdPlaceholder) then r
      else
        ReplaceWithoutPattern(commands[0], SteamIdPlaceholder, steamId);
        r
  }

  /** With a Steam id that is non-empty and shares no character with the
      placeholder (a numeric id, for instance), no placeholder is left. */
  lemma SubstitutedHasNoPlaceholder(commands: seq<string>, steamId: string)
    requires |steamId| > 0
    requires forall c :: c in steamId ==> c !in SteamIdPlaceholder
    ensures forall i :: 0 <= i < |commands| ==>
      !IsSubstring(SteamIdPlaceholder, SubstituteSteamId(commands, steamId)[i])
  {
    forall i | 0 <= i < |commands|
      ensures !IsSubstring(SteamIdPlaceholder, SubstituteSteamId(commands, steamId)[i])
    {
      ReplaceLeavesNoPattern(commands[i], SteamIdPlaceholder, steamId);
    }
  }

  // ---------------------------------------------------------------------------
  // Special commands
  // ---------------------------------------------------------------------------

  /** `is_special_command`: some entry of `specials` occurs in `cmd`. */
  function IsSpecialCommand(cmd: string, specials: seq<string>): (r: bool)
    ensures r <==> exists i :: 0 <= i < |specials| && IsSubstring(specials[i], cmd)
    decreases |specials|
  {
    if |specials| == 0 then false
    else
      assert forall i :: 1 <= i < |specials| ==> specials[i] == specials[1..][i - 1];
      Contains(cmd, specials[0]) || IsSpecialCommand(cmd, specials[1..])
  }

  // ---------------------------------------------------------------------------
  // Price
  // ---------------------------------------------------------------------------

  /** The triple `calculate_discounted_price` returns. */
  datatype PriceQuote = PriceQuote(original: nat, discounted: nat, percent: nat)

  /** `calculate_discounted_price` with the discount as a whole percentage:
      the discounted price is the original total times (100 - percent) / 100,
      rounded down; a discount of 100% or more yields 0 (the float-to-unsigned
      cast saturates at zero). */
  function CalculateDiscountedPrice(basePrice: nat, quantity: nat, percent: nat): (q: PriceQuote)
    ensures q.original == basePrice * quantity
    ensures q.percent == percent
    ensures percent <= 100 ==>
      q.discounted * 100 <= q.original * (100 - percent) < (q.discounted + 1) * 100
    ensures percent >= 100 ==> q.discounted == 0
    ensures q.discounted <= q.original
  {
    var original := basePrice * quantity;
    var discounted := if percent >= 100 then 0 else original * (100 - percent) / 100;
    PriceQuote(original, discounted, percent)
  }

  /** No discount charges the full total. */
  lemma NoDiscountChargesOriginal(basePrice: nat, quantity: nat)
    ensures CalculateDiscountedPrice(basePrice, quantity, 0).discounted == basePrice * quantity
  {
  }

  /** A larger discount never yields a larger price. */
  lemma {:induction false} DiscountAntitone(basePrice: nat, quantity: nat, p1: nat, p2: nat)
    requires p1 <= p2
    ensures CalculateDiscountedPrice(basePrice, quantity, p2).discounted
         <= CalculateDiscountedPrice(basePrice, quantity, p1).discounted
  {
    var q1 := CalculateDiscountedPrice(basePrice, quantity, p1);
    var q2 := CalculateDiscountedPrice(basePrice, quantity, p2);
    if p2 < 100 {
      MulMonotone(q1.original, 100 - p2, 100 - p1);
    }
  }

  lemma MulMonotone(o: nat, x: nat, y: nat)
    requires x <= y
    ensures o * x <= o * y
  {
    assert o * y == o * x + o * (y - x);
  }

  /** The worked example: 2 x 100 coins at 30% off cost 140. */
  lemma PriceExample()
    ensures CalculateDiscountedPrice(100, 2, 30) == PriceQuote(200, 140, 30)
  {
  }

  // ---------------------------------------------------------------------------
  // Sending commands to the game window
  // ---------------------------------------------------------------------------

  /** `char::is_whitespace`: the Unicode White_Space characters. */
  predicate IsWhitespace(c: char)
  {
    c == ' ' || ('\t' <= c <= '\r') || c == '\U{0085}' || c == '\U{00A0}' || c == '\U{1680}'
    || ('\U{2000}' <= c <= '\U{200A}') || c == '\U{2028}' || c == '\U{2029}' || c == '\U{202F}'
    || c == '\U{205F}' || c == '\U{3000}'
  }

  predicate AllWhitespace(s: string)
  {
    forall i :: 0 <= i < |s| ==> IsWhitespace(s[i])
  }

  /** Neither end of `s` is whitespace (the empty string qualifies). */
  predicate IsTrimmed(s: string)
  {
    |s| == 0 || (!IsWhitespace(s[0]) && !IsWhitespace(s[|s| - 1]))
  }

  function TrimStart(s: string): (r: string)
    ensures |r| <= |s| && r == s[|s| - |r|..]
    ensures AllWhitespace(s[..|s| - |r|])
    ensures |r| == 0 || !IsWhitespace(r[0])
    decreases |s|
  {
    if |s| > 0 && IsWhitespace(s[0]) then
      var r := TrimStart(s[1..]);
      assert s[..|s| - |r|] == [s[0]] + s[1..][..|s| - 1 - |r|];
      r
    else s
  }

  function TrimEnd(s: string): (r: string)
    ensures |r| <= |s| && r == s[..|r|]
    ensures AllWhitespace(s[|r|..])
    ensures |r| == 0 || !IsWhitespace(r[|r| - 1])
    decreases |s|
  {
    if |s| > 0 && IsWhitespace(s[|s| - 1]) then
      var r := TrimEnd(s[..|s| - 1]);
      assert s[|r|..] == s[..|s| - 1][|r|..] + [s[|s| - 1]];
      r
    else s
  }

  /** `r` is the slice `s[i..j]` and only whitespace lies outside it. */
  predicate IsSliceBetweenWhitespace(s: string, r: string, i: int, j: int)
  {
    0 <= i <= j <= |s| && r == s[i..j] && AllWhitespace(s[..i]) && AllWhitespace(s[j..])
  }

  /** Rust's `str::trim`: `s` with the whitespace at both ends removed
      (`TrimIsSliceBetweenWhitespace` and `TrimUnique` state exactly that). */
  function Trim(s: string): (r: string)
    ensures IsTrimmed(r)
    ensures |r| <= |s|
  {
    var a := TrimStart(s);
    var r := TrimEnd(a);
    assert |r| > 0 ==> r[0] == a[0];
    r
  }

  /** The trimmed string is a slice of `s` with only whitespace before and
      after it. */
  lemma TrimIsSliceBetweenWhitespace(s: string)
    ensures exists i, j :: IsSliceBetweenWhitespace(s, Trim(s), i, j)
  {
    var a := TrimStart(s);
    var r := Trim(s);
    var i := |s| - |a|;
    assert r == TrimEnd(a);
    assert s[i + |r|..] == a[|r|..];
    assert IsSliceBetweenWhitespace(s, r, i, i + |r|);
  }

  /** The trimmed string is the only trimmed slice of `s` with nothing but
      whitespace around it: `Trim` removes all the whitespace at the ends
      and nothing else. */
  lemma TrimUnique(s: string, r: string, i: int, j: int)
    requires IsTrimmed(r) && IsSliceBetweenWhitespace(s, r, i, j)
    ensures Trim(s) == r
  {
    if |r| == 0 {
      forall k | 0 <= k < |s|
        ensures IsWhitespace(s[k])
      {
        if k < i { assert s[k] == s[..i][k]; } else { assert s[k] == s[j..][k - j]; }
      }
      TrimEmptyIffBlank(s);
    } else {
      var a := TrimStart(s);
      assert s[i] == r[0];
      FirstNonWhitespace(s, i, |s| - |a|);
      var e := TrimEnd(a);
      assert a == s[i..];
      assert a[j - i - 1] == r[|r| - 1];
      assert a[j - i..] == s[j..];
      LastNonWhitespace(a, j - i, |e|);
    }
  }

  /** Two positions each preceded only by whitespace, each at a
      non-whitespace character (or the end), are the same position. */
  lemma FirstNonWhitespace(s: string, i: int, n: int)
    requires 0 <= i < |s| && !IsWhitespace(s[i]) && AllWhitespace(s[..i])
    requires 0 <= n <= |s| && AllWhitespace(s[..n]) && (n == |s| || !IsWhitespace(s[n]))
    ensures n == i
  {
  }

  /** The mirror image: two positions each followed only by whitespace,
      each just after a non-whitespace character, are the same position. */
  lemma LastNonWhitespace(s: string, j: int, m: int)
    requires 0 < j <= |s| && !IsWhitespace(s[j - 1]) && AllWhitespace(s[j..])
    requires 0 <= m <= |s| && AllWhitespace(s[m..]) && (m == 0 || !IsWhitespace(s[m - 1]))
    ensures m == j
  {
  }

  /** A string trims to nothing exactly when it is all whitespace. */
  lemma TrimEmptyIffBlank(s: string)
    ensures Trim(s) == [] <==> AllWhitespace(s)
  {
    var a := TrimStart(s);
    var n := |s| - |a|;
    if Trim(s) == [] {
      assert AllWhitespace(a[0..]);
      assert a == [];
      assert s[..n] == s;
    }
  }

  /** Trimming leaves an already trimmed string alone. */
  lemma TrimOfTrimmed(s: string)
    requires IsTrimmed(s)
    ensures Trim(s) == s
  {
    var a := TrimStart(s);
    assert a == s;
  }

  /** A command is clean when it is non-empty and already trimmed. */
  predicate IsClean(cmd: string)
  {
    |cmd| > 0 && IsTrimmed(cmd)
  }

  predicate AllClean(cmds: seq<string>)
  {
    forall k :: 0 <= k < |cmds| ==> IsClean(cmds[k])
  }

  lemma AllCleanConcat(a: seq<string>, b: seq<string>)
    requires AllClean(a) && AllClean(b)
    ensures AllClean(a + b)
  {
    forall k | 0 <= k < |a + b|
      ensures IsClean((a + b)[k])
    {
      if k >= |a| {
        assert (a + b)[k] == b[k - |a|];
      }
    }
  }

  /** What typing one command produces: nothing for a blank command,
      otherwise its trimmed text as one line. */
  function TypedLine(cmd: string): (lines: seq<string>)
    ensures AllWhitespace(cmd) ==> lines == []
    ensures !AllWhitespace(cmd) ==> lines == [Trim(cmd)]
    ensures AllClean(lines)
  {
    TrimEmptyIffBlank(cmd);
    var t := Trim(cmd);
    if |t| == 0 then [] else [t]
  }

  /** The commands that are not blank, in their order. */
  function NonBlank(commands: seq<string>): (r: seq<string>)
    ensures |r| <= |commands|
    decreases |commands|
  {
    if |commands| == 0 then []
    else if AllWhitespace(commands[0]) then NonBlank(commands[1..])
    else [commands[0]] + NonBlank(commands[1..])
  }

  /** Each command trimmed, in order. */
  function TrimEach(commands: seq<string>): (r: seq<string>)
    ensures |r| == |commands|
    ensures forall k :: 0 <= k < |r| ==> r[k] == Trim(commands[k])
    decreases |commands|
  {
    if |commands| == 0 then [] else [Trim(commands[0])] + TrimEach(commands[1..])
  }

  /** The lines typed for `commands`, one command after another; each line
      is typed character by character and then followed by an Enter key
      press. `TypedLinesAreTrimmedNonBlank` characterises the result. */
  function TypedLines(commands: seq<string>): (lines: seq<string>)
    ensures AllClean(lines)
    ensures |lines| <= |commands|
    decreases |commands|
  {
    if |commands| == 0 then []
    else
      var head := TypedLine(commands[0]);
      var rest := TypedLines(commands[1..]);
      AllCleanConcat(head, rest);
      head + rest
  }

  /** The typed lines are the non-blank commands, each trimmed, in input
      order. */
  lemma {:induction false} TypedLinesAreTrimmedNonBlank(commands: seq<string>)
    ensures TypedLines(commands) == TrimEach(NonBlank(commands))
    decreases |commands|
  {
    if |commands| > 0 {
      TypedLinesAreTrimmedNonBlank(commands[1..]);
      TypedLineThenTrimmedNonBlank(commands, TypedLines(commands[1..]));
    }
  }

  /** Typing the first command and then the trimmed non-blank rest is
      trimming the non-blank commands of the whole list. */
  lemma TypedLineThenTrimmedNonBlank(commands: seq<string>, restLines: seq<string>)
    requires |commands| > 0 && restLines == TrimEach(NonBlank(commands[1..]))
    ensures TypedLine(commands[0]) + restLines == TrimEach(NonBlank(commands))
  {
    if AllWhitespace(commands[0]) {
      assert TypedLine(commands[0]) + restLines == restLines;
    } else {
      TrimEachCons(commands[0], NonBlank(commands[1..]));
    }
  }

  lemma TrimEachCons(c: string, rest: seq<string>)
    ensures TrimEach([c] + rest) == [Trim(c)] + TrimEach(rest)
  {
    assert ([c] + rest)[1..] == rest;
  }

  /** `send_commands_to_game`, as the sequence of lines it types: nothing when
      the game window cannot be found, otherwise the typed lines. */
  function SendCommandsToGame(windowFound: bool, commands: seq<string>): (lines: seq<string>)
    ensures !windowFound ==> lines == []
    ensures windowFound ==> lines == TypedLines(commands)
  {
    if windowFound then TypedLines(commands) else []
  }

  lemma {:induction false} NonBlankAppend(a: seq<string>, b: seq<string>)
    ensures NonBlank(a + b) == NonBlank(a) + NonBlank(b)
    decreases |a|
  {
    if |a| == 0 {
      assert a + b == b;
    } else {
      assert (a + b)[0] == a[0];
      assert (a + b)[1..] == a[1..] + b;
      NonBlankAppend(a[1..], b);
    }
  }

  lemma {:induction false} TrimEachAppend(a: seq<string>, b: seq<string>)
    ensures TrimEach(a + b) == TrimEach(a) + TrimEach(b)
    decreases |a|
  {
    if |a| == 0 {
      assert a + b == b;
    } else {
      assert (a + b)[0] == a[0];
      assert (a + b)[1..] == a[1..] + b;
      TrimEachAppend(a[1..], b);
    }
  }

  /** Typing two lists is typing their concatenation. */
  lemma TypedLinesAppend(a: seq<string>, b: seq<string>)
    ensures TypedLines(a + b) == TypedLines(a) + TypedLines(b)
  {
    TypedLinesAreTrimmedNonBlank(a);
    TypedLinesAreTrimmedNonBlank(b);
    TypedLinesAreTrimmedNonBlank(a + b);
    NonBlankAppend(a, b);
    TrimEachAppend(NonBlank(a), NonBlank(b));
  }

  /** A clean command is typed exactly as given. */
  lemma TypedLineOfClean(cmd: string)
    requires IsClean(cmd)
    ensures TypedLine(cmd) == [cmd]
  {
    TrimOfTrimmed(cmd);
  }

  /** Clean commands are typed exactly as given: none is skipped or altered. */
  lemma TypedLinesOfClean(commands: seq<string>)
    requires AllClean(commands)
    ensures TypedLines(commands) == commands
  {
    TypedLinesAreTrimmedNonBlank(commands);
    NonBlankOfClean(commands);
    TrimEachOfClean(commands);
  }

  /** Clean commands reach the game exactly as written when the window is
      found. */
  lemma SendCleanCommands(windowFound: bool, commands: seq<string>)
    requires AllClean(commands)
    ensures SendCommandsToGame(windowFound, commands) == if windowFound then commands else []
  {
    TypedLinesOfClean(commands);
  }

  /** A single clean line is typed as written when the window is found. */
  lemma SendCleanLine(windowFound: bool, line: string)
    requires IsClean(line)
    ensures SendCommandsToGame(windowFound, [line]) == if windowFound then [line] else []
  {
    SendCleanCommands(windowFound, [line]);
  }

  /** No clean command is blank. */
  lemma {:induction false} NonBlankOfClean(commands: seq<string>)
    requires AllClean(commands)
    ensures NonBlank(commands) == commands
    decreases |commands|
  {
    if |commands| > 0 {
      assert !IsWhitespace(commands[0][0]);
      assert !AllWhitespace(commands[0]);
      assert AllClean(commands[1..]) by {
        forall k | 0 <= k < |commands| - 1 ensures IsClean(commands[1..][k]) {
          assert commands[1..][k] == commands[k + 1];
        }
      }
      NonBlankOfClean(commands[1..]);
      assert [commands[0]] + commands[1..] == commands;
    }
  }

  /** Trimming leaves each clean command alone. */
  lemma TrimEachOfClean(commands: seq<string>)
    requires AllClean(commands)
    ensures TrimEach(commands) == commands
  {
    forall k | 0 <= k < |commands|
      ensures TrimEach(commands)[k] == commands[k]
    {
      TrimOfTrimmed(commands[k]);
    }
  }

  /** A blank command types nothing. */
  lemma TypedLineSkipsBlank(cmd: string)
    requires AllWhitespace(cmd)
    ensures TypedLine(cmd) == []
  {
    TrimEmptyIffBlank(cmd);
  }

  /** The (per-character, after-Enter) delays in milliseconds chosen by the
      command type: destroy batches type more slowly. */
  function Pacing(commandType: string): (delays: (nat, nat))
    ensures commandType == "destroy" ==> delays == (5, 3)
    ensures commandType != "destroy" ==> delays == (3, 3)
  {
    if commandType == "destroy" then (5, 3) else (3, 3)
  }
}
