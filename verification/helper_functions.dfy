/**
 * Text and path helpers used around conversations: word wrapping of replies,
 * delimiter splitting with trimming, LoRA adapter file resolution, and the
 * guard of the exported calls that copy a string into a caller's buffer.
 */
module HelperFunctions {
  import opened StdString

  // ---------------------------------------------------------------------
  // Word wrapping
  // ---------------------------------------------------------------------

  /** `std::isspace` in the "C" locale. */
  predicate IsSpace(c: char)
  {
    c == ' ' || c == '\t' || c == '\n' || c == '\U{0B}' || c == '\U{0C}' || c == '\r'
  }

  /**
   * The wrapped rest of a text: `word` is the word being collected and
   * `lineLen` the length of the current output line.  At a whitespace
   * character the word, followed by a space, goes on the current line, or on a
   * new one when it would push the line past `limit`; the last word gets the
   * same check without a space.
   */
  function WrapFrom(text: string, word: string, lineLen: nat, limit: nat): string
    decreases |text|
  {
    if |text| == 0 then
      if |word| > 0 then (if lineLen + |word| > limit then "\n" else "") + word else ""
    else if IsSpace(text[0]) then
      var brk := lineLen + |word| > limit;
      (if brk then "\n" else "") + word + " " + WrapFrom(text[1..], "", (if brk then 0 else lineLen) + |word| + 1, limit)
    else
      WrapFrom(text[1..], word + [text[0]], lineLen, limit)
  }

  /** Every whitespace character turned into a space. */
  function Normalize(text: string): (r: string)
    ensures |r| == |text|
  {
    if text == [] then [] else [if IsSpace(text[0]) then ' ' else text[0]] + Normalize(text[1..])
  }

  /** The text with its line breaks removed. */
  function Unwrap(s: string): (r: string)
    ensures |r| <= |s|
  {
    if s == [] then [] else (if s[0] == '\n' then [] else [s[0]]) + Unwrap(s[1..])
  }

  lemma {:induction false} UnwrapConcat(a: string, b: string)
    ensures Unwrap(a + b) == Unwrap(a) + Unwrap(b)
    decreases |a|
  {
    if a == [] {
      assert a + b == b;
    } else {
      assert (a + b)[0] == a[0];
      assert (a + b)[1..] == a[1..] + b;
      UnwrapConcat(a[1..], b);
    }
  }

  lemma {:induction false} UnwrapPlain(s: string)
    requires '\n' !in s
    ensures Unwrap(s) == s
    decreases |s|
  {
    if s != [] {
      assert s == [s[0]] + s[1..];
      UnwrapPlain(s[1..]);
    }
  }

  /** Wrapping the rest of a text only inserts line breaks into the collected word and the normalised rest. */
  lemma {:induction false} WrapFromOnlyBreaks(text: string, word: string, lineLen: nat, limit: nat)
    requires '\n' !in word
    ensures Unwrap(WrapFrom(text, word, lineLen, limit)) == word + Normalize(text)
    decreases |text|, 1
  {
    if |text| == 0 {
      var brk: string := if lineLen + |word| > limit then "\n" else "";
      assert Normalize(text) == [];
      if |word| > 0 {
        assert WrapFrom(text, word, lineLen, limit) == brk + word;
        UnwrapConcat(brk, word);
        UnwrapPlain(word);
        assert Unwrap(brk) == [] by {
          if brk != [] { assert Unwrap(brk) == [] + Unwrap(brk[1..]); }
        }
      } else {
        assert word == [];
      }
    } else if IsSpace(text[0]) {
      WrapFromSpace(text, word, lineLen, limit);
    } else {
      assert WrapFrom(text, word, lineLen, limit) == WrapFrom(text[1..], word + [text[0]], lineLen, limit);
      WrapFromOnlyBreaks(text[1..], word + [text[0]], lineLen, limit);
      assert Normalize(text) == [text[0]] + Normalize(text[1..]);
      assert word + [text[0]] + Normalize(text[1..]) == word + ([text[0]] + Normalize(text[1..]));
    }
  }

  /** The whitespace step of `WrapFromOnlyBreaks`. */
  lemma {:induction false} WrapFromSpace(text: string, word: string, lineLen: nat, limit: nat)
    requires '\n' !in word && |text| > 0 && IsSpace(text[0])
    ensures Unwrap(WrapFrom(text, word, lineLen, limit)) == word + Normalize(text)
    decreases |text|, 0
  {
    var brk := lineLen + |word| > limit;
    var pre: string := if brk then "\n" else "";
    var rest := WrapFrom(text[1..], "", (if brk then 0 else lineLen) + |word| + 1, limit);
    assert WrapFrom(text, word, lineLen, limit) == pre + (word + " ") + rest;
    assert Unwrap(rest) == Normalize(text[1..]) by {
      WrapFromOnlyBreaks(text[1..], "", (if brk then 0 else lineLen) + |word| + 1, limit);
    }
    assert Unwrap(pre + (word + " ")) == word + " " by {
      UnwrapConcat(pre, word + " ");
      assert Unwrap(pre) == [] by {
        if brk { assert Unwrap(pre) == [] + Unwrap(pre[1..]); }
      }
      UnwrapPlain(word + " ");
    }
    assert Unwrap(pre + (word + " ") + rest) == word + " " + Normalize(text[1..]) by {
      UnwrapConcat(pre + (word + " "), rest);
    }
    assert Normalize(text) == [' '] + Normalize(text[1..]);
  }

  /** A rest of text that fits on the current line is emitted without any break. */
  lemma {:induction false} WrapFromFits(text: string, word: string, lineLen: nat, limit: nat)
    requires lineLen + |word| + |text| <= limit
    ensures WrapFrom(text, word, lineLen, limit) == word + Normalize(text)
    decreases |text|
  {
    if |text| == 0 {
      assert Normalize(text) == [];
    } else if IsSpace(text[0]) {
      assert WrapFrom(text, word, lineLen, limit)
          == word + " " + WrapFrom(text[1..], "", lineLen + |word| + 1, limit);
      assert WrapFrom(text[1..], "", lineLen + |word| + 1, limit) == Normalize(text[1..]) by {
        WrapFromFits(text[1..], "", lineLen + |word| + 1, limit);
      }
      assert Normalize(text) == [' '] + Normalize(text[1..]);
    } else {
      assert WrapFrom(text, word, lineLen, limit) == WrapFrom(text[1..], word + [text[0]], lineLen, limit);
      assert WrapFrom(text[1..], word + [text[0]], lineLen, limit) == word + [text[0]] + Normalize(text[1..]) by {
        WrapFromFits(text[1..], word + [text[0]], lineLen, limit);
      }
      assert Normalize(text) == [text[0]] + Normalize(text[1..]);
    }
  }

  /** Every line break is the first character or follows a space, so none falls inside a word. */
  ghost predicate BreaksBetweenWords(s: string)
  {
    forall i :: 0 < i < |s| && s[i] == '\n' ==> s[i - 1] == ' '
  }

  /** Two texts whose breaks sit between words, joined where the second does not start a line mid-word. */
  lemma BreaksBetweenWordsConcat(a: string, b: string)
    requires BreaksBetweenWords(a) && BreaksBetweenWords(b)
    requires a != [] && b != [] && b[0] == '\n' ==> a[|a| - 1] == ' '
    ensures BreaksBetweenWords(a + b)
  {
    forall i | 0 < i < |a + b| && (a + b)[i] == '\n'
      ensures (a + b)[i - 1] == ' '
    {
      if i > |a| {
        assert (a + b)[i] == b[i - |a|] && (a + b)[i - 1] == b[i - 1 - |a|];
      } else if i == |a| {
        assert (a + b)[i] == b[0] && (a + b)[i - 1] == a[|a| - 1];
      } else {
        assert (a + b)[i] == a[i] && (a + b)[i - 1] == a[i - 1];
      }
    }
  }

  /** A text without line breaks has its breaks between words vacuously. */
  lemma NoBreaks(s: string)
    requires '\n' !in s
    ensures BreaksBetweenWords(s)
  {
  }

  /** Wrapping the rest of a text puts every break it inserts before a word, right after a space or first. */
  lemma {:induction false} WrapFromBreaks(text: string, word: string, lineLen: nat, limit: nat)
    requires '\n' !in word
    ensures BreaksBetweenWords(WrapFrom(text, word, lineLen, limit))
    decreases |text|
  {
    var brk := lineLen + |word| > limit;
    var pre: string := if brk then "\n" else "";
    assert BreaksBetweenWords(pre);
    if |text| == 0 {
      if |word| > 0 {
        assert WrapFrom(text, word, lineLen, limit) == pre + word;
        NoBreaks(word);
        BreaksBetweenWordsConcat(pre, word);
      }
    } else if IsSpace(text[0]) {
      var rest := WrapFrom(text[1..], "", (if brk then 0 else lineLen) + |word| + 1, limit);
      assert WrapFrom(text, word, lineLen, limit) == pre + (word + " ") + rest;
      WrapFromBreaks(text[1..], "", (if brk then 0 else lineLen) + |word| + 1, limit);
      NoBreaks(word + " ");
      BreaksBetweenWordsConcat(pre, word + " ");
      BreaksBetweenWordsConcat(pre + (word + " "), rest);
    } else {
      assert WrapFrom(text, word, lineLen, limit) == WrapFrom(text[1..], word + [text[0]], lineLen, limit);
      WrapFromBreaks(text[1..], word + [text[0]], lineLen, limit);
    }
  }

  /**
   * `WordWrap(text, limit)` as a value.  Wrapping changes nothing but
   * whitespace: without its line breaks the result is the text with every
   * blank a space.  Words are never split: every line break is the first
   * character or follows the space after a word.
   */
  function Wrapped(text: string, limit: nat): (r: string)
    ensures Unwrap(r) == Normalize(text)
    ensures forall i :: 0 <= i < |r| && r[i] == '\n' ==> i == 0 || r[i - 1] == ' '
  {
    if text == "" then ""
    else
      WrapFromOnlyBreaks(text, "", 0, limit);
      WrapFromBreaks(text, "", 0, limit);
      WrapFrom(text, "", 0, limit)
  }

  /** A text no longer than the limit is not broken at all. */
  lemma ShortTextUnbroken(text: string, limit: nat)
    requires |text| <= limit
    ensures Wrapped(text, limit) == Normalize(text)
  {
    if text != "" {
      WrapFromFits(text, "", 0, limit);
    }
  }

  /** Reading the character at `i` of the text. */
  lemma WrapFromStep(text: string, i: nat, word: string, lineLen: nat, limit: nat)
    requires i < |text|
    ensures WrapFrom(text[i..], word, lineLen, limit) ==
      if IsSpace(text[i]) then
        var brk := lineLen + |word| > limit;
        (if brk then "\n" else "") + word + " " + WrapFrom(text[i + 1..], "", (if brk then 0 else lineLen) + |word| + 1, limit)
      else WrapFrom(text[i + 1..], word + [text[i]], lineLen, limit)
  {
    assert text[i..][0] == text[i];
    assert text[i..][1..] == text[i + 1..];
  }

  /** Breaks a reply into lines of about `limit` characters at whitespace. */
  method WordWrap(text: string, limit: nat) returns (result: string)
    ensures result == Wrapped(text, limit)
  {
    if text == "" {
      return "";
    }
    result := "";
    var currentWord := "";
    var currentLineLength: nat := 0;
    for i := 0 to |text|
      invariant result + WrapFrom(text[i..], currentWord, currentLineLength, limit) == WrapFrom(text, "", 0, limit)
    {
      var c := text[i];
      WrapFromStep(text, i, currentWord, currentLineLength, limit);
      if IsSpace(c) {
        ghost var piece := (if currentLineLength + |currentWord| > limit then "\n" else "") + currentWord + " ";
        ghost var tail := WrapFrom(text[i + 1..], "", (if currentLineLength + |currentWord| > limit then 0 else currentLineLength) + |currentWord| + 1, limit);
        assert result + piece + tail == WrapFrom(text, "", 0, limit);
        ghost var done := result + piece;
        if currentLineLength + |currentWord| > limit {
          result := result + "\n";
          currentLineLength := 0;
        }
        result := result + currentWord + " ";
        currentLineLength := currentLineLength + |currentWord| + 1;
        currentWord := "";
        assert result == done;
      } else {
        currentWord := currentWord + [c];
      }
    }
    assert text[|text|..] == [];
    if |currentWord| > 0 {
      if currentLineLength + |currentWord| > limit {
        result := result + "\n";
      }
      result := result + currentWord;
    }
  }

  // ---------------------------------------------------------------------
  // Splitting
  // ---------------------------------------------------------------------

  /** The blanks trimmed from each token. */
  const Blanks: set<char> := {' ', '\t', '\r', '\n'}

  /** Drops the leading blanks. */
  function TrimLeft(s: string): (r: string)
    ensures r == [] || r[0] !in Blanks
    ensures |r| <= |s| && r == s[|s| - |r|..]
  {
    if s != [] && s[0] in Blanks then TrimLeft(s[1..]) else s
  }

  /** Drops the trailing blanks. */
  function TrimRight(s: string): (r: string)
    ensures r == [] || r[|r| - 1] !in Blanks
    ensures |r| <= |s| && r == s[..|r|]
  {
    if s != [] && s[|s| - 1] in Blanks then TrimRight(s[..|s| - 1]) else s
  }

  /** With blanks exactly before position `i`, the left trim is the rest from `i`. */
  lemma {:induction false} TrimLeftAt(s: string, i: nat)
    requires i <= |s| && (i == |s| || s[i] !in Blanks)
    requires forall j :: 0 <= j < i ==> s[j] in Blanks
    ensures TrimLeft(s) == s[i..]
    decreases i
  {
    if i > 0 {
      TrimLeftAt(s[1..], i - 1);
      assert s[1..][i - 1..] == s[i..];
    }
  }

  /** `erase(0, find_first_not_of(blanks))`: a blank-only token becomes empty. */
  lemma TrimLeftIsErase(s: string)
    ensures TrimLeft(s) == match FindFirstNotOf(s, Blanks) case None => [] case Some(i) => s[i..]
  {
    match FindFirstNotOf(s, Blanks)
    case None => TrimLeftAt(s, |s|);
    case Some(i) => TrimLeftAt(s, i);
  }

  /** With blanks exactly after position `j`, the right trim is the text up to `j`. */
  lemma {:induction false} TrimRightAt(s: string, j: nat)
    requires j <= |s| && (j == 0 || s[j - 1] !in Blanks)
    requires forall k :: j <= k < |s| ==> s[k] in Blanks
    ensures TrimRight(s) == s[..j]
    decreases |s| - j
  {
    if j < |s| {
      TrimRightAt(s[..|s| - 1], j);
      assert s[..|s| - 1][..j] == s[..j];
    }
  }

  /** `erase(find_last_not_of(blanks) + 1)`: a blank-only token becomes empty. */
  lemma TrimRightIsErase(s: string)
    ensures TrimRight(s) == match FindLastNotOf(s, Blanks) case None => [] case Some(j) => s[..j + 1]
  {
    match FindLastNotOf(s, Blanks)
    case None => TrimRightAt(s, 0);
    case Some(j) => TrimRightAt(s, j + 1);
  }

  /** A token with its surrounding blanks erased, front first. */
  function Trim(s: string): (r: string)
    ensures r == [] || (r[0] !in Blanks && r[|r| - 1] !in Blanks)
  {
    TrimRight(TrimLeft(s))
  }

  /** A non-empty string without blanks at either end is its own trim. */
  lemma TrimClean(t: string)
    requires t != [] && t[0] !in Blanks && t[|t| - 1] !in Blanks
    ensures Trim(t) == t
  {
  }

  /** A trim keeps no character the token did not have. */
  lemma TrimKeepsOut(s: string, c: char)
    requires c !in s
    ensures c !in Trim(s)
  {
    var l := TrimLeft(s);
    assert forall j :: 0 <= j < |l| ==> l[j] == s[|s| - |l| + j];
    var r := TrimRight(l);
    assert forall j :: 0 <= j < |r| ==> r[j] == l[j];
  }

  /** A kept token: only a non-empty one. */
  function Keep(t: string): seq<string>
  {
    if t == [] then [] else [t]
  }

  /**
   * The tokens of the rest `s` of the text when `field` has been read since
   * the last delimiter: at each delimiter and at the end the field is trimmed
   * and kept when non-empty.  The field a trailing delimiter would open is
   * empty, so it yields nothing, just as the stream read stops there.
   */
  function SplitFrom(s: string, field: string, d: char): seq<string>
    decreases |s|
  {
    if s == [] then Keep(Trim(field))
    else if s[0] == d then Keep(Trim(field)) + SplitFrom(s[1..], [], d)
    else SplitFrom(s[1..], field + [s[0]], d)
  }

  /** `SplitString(s, d)` as a value: every token is clean. */
  function Split(s: string, d: char): (ts: seq<string>)
    ensures forall i :: 0 <= i < |ts| ==> CleanToken(ts[i], d)
  {
    SplitFromClean(s, [], d);
    SplitFrom(s, [], d)
  }

  /** A clean token: non-empty, no delimiter, no blank at either end. */
  ghost predicate CleanToken(t: string, d: char)
  {
    t != [] && d !in t && t[0] !in Blanks && t[|t| - 1] !in Blanks
  }

  lemma {:induction false} SplitFromClean(s: string, field: string, d: char)
    requires d !in field
    ensures forall i :: 0 <= i < |SplitFrom(s, field, d)| ==> CleanToken(SplitFrom(s, field, d)[i], d)
    decreases |s|
  {
    TrimKeepsOut(field, d);
    if s != [] {
      if s[0] == d {
        SplitFromClean(s[1..], [], d);
      } else {
        SplitFromClean(s[1..], field + [s[0]], d);
      }
    }
  }

  /** Clean tokens joined by the delimiter. */
  function Join(ts: seq<string>, d: char): string
  {
    if |ts| == 0 then "" else if |ts| == 1 then ts[0] else ts[0] + [d] + Join(ts[1..], d)
  }

  /** Characters other than the delimiter only extend the field being read. */
  lemma {:induction false} SplitFromField(t: string, rest: string, field: string, d: char)
    requires d !in t
    ensures SplitFrom(t + rest, field, d) == SplitFrom(rest, field + t, d)
    decreases |t|
  {
    if t == [] {
      assert t + rest == rest && field + t == field;
    } else {
      assert (t + rest)[0] == t[0] && (t + rest)[1..] == t[1..] + rest;
      SplitFromField(t[1..], rest, field + [t[0]], d);
      assert field + [t[0]] + t[1..] == field + t;
    }
  }

  /** A clean token followed by the delimiter is read as exactly that token. */
  lemma SplitFromToken(t: string, rest: string, d: char)
    requires CleanToken(t, d)
    ensures SplitFrom(t + ([d] + rest), [], d) == [t] + SplitFrom(rest, [], d)
  {
    assert SplitFrom(t + ([d] + rest), [], d) == SplitFrom([d] + rest, t, d) by {
      SplitFromField(t, [d] + rest, [], d);
      assert [] + t == t;
    }
    assert SplitFrom([d] + rest, t, d) == Keep(Trim(t)) + SplitFrom(rest, [], d) by {
      assert ([d] + rest)[0] == d && ([d] + rest)[1..] == rest;
    }
    TrimClean(t);
  }

  /** A clean token alone is read as exactly that token. */
  lemma SplitFromLast(t: string, d: char)
    requires CleanToken(t, d)
    ensures SplitFrom(t, [], d) == [t]
  {
    assert SplitFrom(t, [], d) == SplitFrom([], t, d) by {
      SplitFromField(t, [], [], d);
      assert t + [] == t && [] + t == t;
    }
    TrimClean(t);
  }

  /** Splitting clean tokens joined by the delimiter gives the tokens back. */
  lemma {:induction false} SplitJoin(ts: seq<string>, d: char)
    requires forall i :: 0 <= i < |ts| ==> CleanToken(ts[i], d)
    ensures Split(Join(ts, d), d) == ts
    decreases |ts|
  {
    if |ts| == 1 {
      SplitFromLast(ts[0], d);
    } else if |ts| > 1 {
      assert Join(ts, d) == ts[0] + ([d] + Join(ts[1..], d));
      SplitFromToken(ts[0], Join(ts[1..], d), d);
      SplitJoin(ts[1..], d);
      assert ts == [ts[0]] + ts[1..];
    }
  }

  /** Reading the character at `k`: a delimiter closes the field, any other character extends it. */
  lemma SplitFromStep(s: string, k: nat, field: string, d: char)
    requires k < |s|
    ensures SplitFrom(s[k..], field, d) ==
      if s[k] == d then Keep(Trim(field)) + SplitFrom(s[k + 1..], [], d)
      else SplitFrom(s[k + 1..], field + [s[k]], d)
  {
    assert s[k..][0] == s[k];
    assert s[k..][1..] == s[k + 1..];
  }

  /** At the end of the text the field read so far is the last one. */
  lemma SplitFromEnd(s: string, field: string, d: char)
    ensures SplitFrom(s[|s|..], field, d) == Keep(Trim(field))
  {
    assert s[|s|..] == [];
  }

  /**
   * `std::getline` from `pos`: the characters up to the next delimiter or the
   * end, and the position `k` where it stopped.
   */
  method GetLine(str: string, pos: nat, delimiter: char) returns (field: string, k: nat)
    requires pos <= |str|
    ensures pos <= k <= |str| && field == str[pos..k]
    ensures k < |str| ==> str[k] == delimiter
    ensures delimiter !in field
  {
    field := "";
    k := pos;
    while k < |str| && str[k] != delimiter
      invariant pos <= k <= |str| && field == str[pos..k]
      invariant delimiter !in field
    {
      assert str[pos..k + 1] == str[pos..k] + [str[k]];
      field := field + [str[k]];
      k := k + 1;
    }
  }

  /** One `getline` call: the field up to the delimiter at `k` (or the end) is trimmed and kept, and reading resumes after it. */
  lemma SplitAtLine(str: string, pos: nat, k: nat, d: char)
    requires pos <= k <= |str|
    requires k < |str| ==> str[k] == d
    requires d !in str[pos..k]
    ensures SplitFrom(str[pos..], [], d) ==
      Keep(TrimRight(TrimLeft(str[pos..k]))) + SplitFrom(str[if k < |str| then k + 1 else k..], [], d)
  {
    var field := str[pos..k];
    assert str[pos..] == field + str[k..];
    SplitFromField(field, str[k..], [], d);
    assert [] + field == field;
    if k < |str| {
      SplitFromStep(str, k, field, d);
    } else {
      SplitFromEnd(str, field, d);
      assert SplitFrom(str[k..], [], d) == [];
      assert Keep(Trim(field)) + [] == Keep(Trim(field));
    }
  }

  /** Keeping a token is appending it when it is non-empty. */
  lemma KeepStep(tokens: seq<string>, token: string, rest: seq<string>, total: seq<string>)
    requires tokens + (Keep(token) + rest) == total
    ensures (if token != [] then tokens + [token] else tokens) + rest == total
  {
    if token == [] {
      assert Keep(token) + rest == rest;
    } else {
      assert tokens + ([token] + rest) == tokens + [token] + rest;
    }
  }

  /** Splits `str` at `delimiter`, trimming each token and dropping the empty ones. */
  method SplitString(str: string, delimiter: char) returns (tokens: seq<string>)
    ensures tokens == Split(str, delimiter)
  {
    tokens := [];
    var pos := 0;
    while pos < |str|
      invariant 0 <= pos <= |str|
      invariant tokens + SplitFrom(str[pos..], [], delimiter) == Split(str, delimiter)
      decreases |str| - pos
    {
      var token, k := GetLine(str, pos, delimiter);
      SplitAtLine(str, pos, k, delimiter);
      ghost var rest := SplitFrom(str[if k < |str| then k + 1 else k..], [], delimiter);
      // erase the leading, then the trailing blanks
      token := TrimLeft(token);
      token := TrimRight(token);
      KeepStep(tokens, token, rest, Split(str, delimiter));
      pos := if k < |str| then k + 1 else k;
      if token != [] {
        tokens := tokens + [token];
      }
    }
    SplitFromEnd(str, [], delimiter);
  }

  // ---------------------------------------------------------------------
  // LoRA adapter resolution
  // ---------------------------------------------------------------------

  const DefaultLoraName: string := "mod_lora.gguf"

  /** A directory path with a separator at its end. */
  function WithTrailingSeparator(path: string): (r: string)
    requires path != []
    ensures |r| > 0 && (r[|r| - 1] == '\\' || r[|r| - 1] == '/')
    ensures r == path || r == path + "\\"
  {
    if path[|path| - 1] != '\\' && path[|path| - 1] != '/' then path + "\\" else path
  }

  /**
   * The places an adapter is looked for, in order: the configured directory
   * with the configured name, the root with the configured name, the root
   * with the default name.
   */
  function LoraCandidates(rootPath: string, customPath: string, customName: string): (cs: seq<string>)
    ensures 1 <= |cs| <= 3 && cs[|cs| - 1] == rootPath + DefaultLoraName
    ensures customName == [] ==> cs == [rootPath + DefaultLoraName]
    ensures forall i :: 0 <= i < |cs| ==> cs[i] != []
  {
    (if customPath != [] && customName != [] then [WithTrailingSeparator(customPath) + customName] else [])
    + (if customName != [] then [rootPath + customName] else [])
    + [rootPath + DefaultLoraName]
  }

  /** The first of `cs` that exists, or "" when none does. */
  function FirstExisting(cs: seq<string>, fileExists: string -> bool): (r: string)
    requires forall i :: 0 <= i < |cs| ==> cs[i] != []
    ensures r == [] || (r in cs && fileExists(r))
    ensures r == [] <==> forall i :: 0 <= i < |cs| ==> !fileExists(cs[i])
    ensures r != [] ==> exists i :: 0 <= i < |cs| && r == cs[i] && forall j :: 0 <= j < i ==> !fileExists(cs[j])
  {
    if cs == [] then []
    else if fileExists(cs[0]) then cs[0]
    else
      var r := FirstExisting(cs[1..], fileExists);
      assert forall i :: 1 <= i < |cs| ==> cs[i] == cs[1..][i - 1];
      assert r != [] ==> exists i :: 0 <= i < |cs| && r == cs[i] && forall j :: 0 <= j < i ==> !fileExists(cs[j]) by {
        if r != [] {
          var i :| 0 <= i < |cs[1..]| && r == cs[1..][i] && forall j :: 0 <= j < i ==> !fileExists(cs[1..][j]);
          assert r == cs[i + 1];
          assert forall j :: 0 <= j < i + 1 ==> !fileExists(cs[j]) by {
            forall j | 0 <= j < i + 1 ensures !fileExists(cs[j]) {
              if j > 0 { assert cs[j] == cs[1..][j - 1]; }
            }
          }
        }
      }
      r
  }

  /**
   * Resolves the adapter file: the first existing candidate, or "" when none
   * exists.  `fileExists` stands for the file system.
   */
  function FindLoRAFile(rootPath: string, customPath: string, customName: string,
                        fileExists: string -> bool): (r: string)
    ensures r == FirstExisting(LoraCandidates(rootPath, customPath, customName), fileExists)
    ensures r == [] <==> forall i :: 0 <= i < |LoraCandidates(rootPath, customPath, customName)| ==>
      !fileExists(LoraCandidates(rootPath, customPath, customName)[i])
  {
    var c1 := if customPath != [] && customName != [] then WithTrailingSeparator(customPath) + customName else [];
    if customPath != [] && customName != [] && fileExists(c1) then c1
    else if customName != [] && fileExists(rootPath + customName) then rootPath + customName
    else if fileExists(rootPath + DefaultLoraName) then rootPath + DefaultLoraName
    else []
  }

  // ---------------------------------------------------------------------
  // Copying a string out to a caller's buffer
  // ---------------------------------------------------------------------

  const SizeModulus: int := 0x1_0000_0000_0000_0000

  /** `static_cast<size_t>` of a signed value on a 64-bit target. */
  function SizeT(n: int): (r: nat)
    ensures r < SizeModulus
    ensures 0 <= n < SizeModulus ==> r == n
    ensures -SizeModulus <= n < 0 ==> r == n + SizeModulus
  {
    n % SizeModulus
  }

  /** The exported calls' size guard as written: the length plus the terminator against the size cast to unsigned. */
  predicate CopyAllowedAsWritten(length: nat, bufferSize: int): (ok: bool)
    ensures 0 <= bufferSize < SizeModulus ==> (ok <==> length + 1 <= bufferSize)
    ensures -SizeModulus <= bufferSize < 0 ==> (ok <==> length + 1 <= bufferSize + SizeModulus)
  {
    !(length + 1 > SizeT(bufferSize))
  }

  /** A negative size wraps to a huge unsigned one, so the guard lets a copy into a buffer of size -1 through. */
  lemma NegativeSizeBypassesGuard()
    ensures CopyAllowedAsWritten(|"Response error."|, -1)
    ensures |"Response error."| + 1 > -1
  {
  }

  /** The intended guard: the text and its terminator fit in `bufferSize` characters. */
  predicate CopyAllowed(length: nat, bufferSize: int)
  {
    0 <= bufferSize && length + 1 <= bufferSize
  }

  /** For every non-negative 32-bit size the intended guard decides as the written one does. */
  lemma GuardsAgreeOnNonNegativeSizes(length: nat, bufferSize: int)
    requires 0 <= bufferSize < 0x8000_0000
    ensures CopyAllowed(length, bufferSize) <==> CopyAllowedAsWritten(length, bufferSize)
  {
  }

  /**
   * Copies a non-empty `text` and its terminator into `buffer` when it fits in
   * `bufferSize` characters (the last reply or the NPC name, for the exported
   * calls); the caller's buffer holds at least `bufferSize` characters.
   */
  method CopyOut(text: string, buffer: array<char>, bufferSize: int) returns (ok: bool)
    requires bufferSize <= buffer.Length
    modifies buffer
    ensures ok <==> text != [] && CopyAllowed(|text|, bufferSize)
    ensures ok ==>
      && |text| < buffer.Length && buffer[..|text|] == text && buffer[|text|] == '\0'
      && buffer[|text| + 1..] == old(buffer[|text| + 1..])
    ensures !ok ==> unchanged(buffer)
  {
    if text == [] {
      return false;
    }
    if !CopyAllowed(|text|, bufferSize) {
      return false;
    }
    for i := 0 to |text|
      invariant buffer[..i] == text[..i]
      invariant buffer[i..] == old(buffer[i..])
    {
      buffer[i] := text[i];
    }
    ghost var tail := buffer[|text| + 1..];
    assert tail == old(buffer[|text|..])[1..];
    buffer[|text|] := '\0';
    assert buffer[|text| + 1..] == tail;
    return true;
  }
}
