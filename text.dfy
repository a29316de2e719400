/**
 * The string operations of the .NET base library that the framework relies
 * on: lower-casing, ordinal substring search, the null/blank tests and
 * composite formatting (`string.Format`).
 */
module Text {
  import opened Wrappers
  import opened Exceptions

  /** Lower-cases one character (ASCII letters only). */
  function LowerChar(c: char): char {
    if 'A' <= c <= 'Z' then (c as int + 32) as char else c
  }

  /** `ToLowerInvariant`, restricted to ASCII letters. */
  function Lower(s: string): (r: string)
    ensures |r| == |s|
    ensures forall i :: 0 <= i < |s| ==> r[i] == LowerChar(s[i])
  {
    if s == [] then [] else [LowerChar(s[0])] + Lower(s[1..])
  }

  /** Lower-casing twice is lower-casing once. */
  lemma LowerIdempotent(s: string)
    ensures Lower(Lower(s)) == Lower(s)
  {
    assert forall i :: 0 <= i < |s| ==> LowerChar(LowerChar(s[i])) == LowerChar(s[i]);
  }

  /** `part` occurs in `s` starting at index `i`. */
  predicate OccursAt(s: string, part: string, i: int) {
    0 <= i && i + |part| <= |s| && s[i..i + |part|] == part
  }

  /** Ordinal `s.Contains(part)`: true for the empty `part`. */
  predicate Contains(s: string, part: string) {
    exists i | 0 <= i <= |s| - |part| :: OccursAt(s, part, i)
  }

  /** `a.ToLowerInvariant().Contains(b.ToLowerInvariant())`. */
  predicate ContainsIgnoreCase(s: string, part: string) {
    Contains(Lower(s), Lower(part))
  }

  /** Every string contains the empty string and itself. */
  lemma ContainsTrivial(s: string)
    ensures Contains(s, "") && Contains(s, s)
  {
    assert OccursAt(s, "", 0);
    assert OccursAt(s, s, 0);
  }

  /** `char.IsWhiteSpace` for the characters Latin-1 defines as white space. */
  predicate IsWhiteSpaceChar(c: char) {
    c == ' ' || c == '\t' || c == '\n' || c == '\r' || c == '\U{B}' || c == '\U{C}'
    || c == '\U{85}' || c == '\U{A0}'
  }

  /** `string.IsNullOrEmpty`. */
  predicate IsNullOrEmpty(s: Option<string>) {
    s.None? || s.value == ""
  }

  /** `string.IsNullOrWhiteSpace`. */
  predicate IsNullOrWhiteSpace(s: Option<string>) {
    s.None? || forall i | 0 <= i < |s.value| :: IsWhiteSpaceChar(s.value[i])
  }

  /** A blank string is never a non-blank one: null/empty implies null/white space. */
  lemma EmptyIsWhiteSpace(s: Option<string>)
    requires IsNullOrEmpty(s)
    ensures IsNullOrWhiteSpace(s)
  {
  }

  predicate IsDigit(c: char) {
    '0' <= c <= '9'
  }

  /*
   * Composite formatting, as the .NET Framework's `string.Format` parses
   * it. A format item is `{index[,alignment][:formatString]}`: the index,
   * optional spaces, an optional comma with optional spaces, an optional
   * minus and the width, optional spaces, and an optional colon with the
   * format string up to the closing brace. The arguments here are strings,
   * which ignore the format string.
   */

  /** Reading the digits of an index or a width stops once the value reaches this limit. */
  const FormatLimit: nat := 1000000

  /**
   * The digits read from `s[i..]` by the digit loop of composite formatting,
   * which stops at a non-digit or once the value reaches FormatLimit: the
   * value, and the index after the last digit read.
   */
  function ReadNumber(s: string, i: nat, acc: nat): (r: (nat, nat))
    requires i <= |s|
    ensures i <= r.1 <= |s|
    ensures forall k | i <= k < r.1 :: IsDigit(s[k])
    ensures r.1 < |s| && IsDigit(s[r.1]) ==> r.0 >= FormatLimit
    decreases |s| - i
  {
    if i < |s| && IsDigit(s[i]) && acc < FormatLimit then
      ReadNumber(s, i + 1, acc * 10 + (s[i] as int - '0' as int))
    else (acc, i)
  }

  /** The index of the first character of `s[i..]` that is not a space, or `|s|`. */
  function SkipSpaces(s: string, i: nat): (j: nat)
    requires i <= |s|
    ensures i <= j <= |s| && (j < |s| ==> s[j] != ' ')
    ensures forall k | i <= k < j :: s[k] == ' '
    decreases |s| - i
  {
    if i < |s| && s[i] == ' ' then SkipSpaces(s, i + 1) else i
  }

  /**
   * The index of the brace that closes a format string starting at `s[i]`:
   * inside it `{{` and `}}` stand for braces, and a lone `{` or a missing
   * closing brace raise FormatException.
   */
  function FormatStringEnd(s: string, i: nat): (r: Result<nat>)
    requires i <= |s|
    ensures r.Ok? ==> i <= r.value < |s| && s[r.value] == '}'
    ensures r.Err? ==> r.error == Exceptions.Format
    decreases |s| - i
  {
    if i == |s| then Err(Exceptions.Format)
    else if s[i] == '{' then
      if i + 1 < |s| && s[i + 1] == '{' then FormatStringEnd(s, i + 2) else Err(Exceptions.Format)
    else if s[i] == '}' then
      if i + 1 < |s| && s[i + 1] == '}' then FormatStringEnd(s, i + 2) else Ok(i)
    else FormatStringEnd(s, i + 1)
  }

  /** A parsed format item; `end` is the index just past its closing brace. */
  datatype Item = Item(index: nat, leftAligned: bool, width: nat, end: nat)

  /**
   * The format item whose text, after its opening brace, starts `s`, for a
   * call with `argCount` arguments; FormatException for a malformed item or
   * an index past the arguments.
   */
  function ParseItem(s: string, argCount: nat): (r: Result<Item>)
    ensures r.Ok? ==> 0 < r.value.end <= |s| && s[r.value.end - 1] == '}' && r.value.index < argCount
    ensures r.Err? ==> r.error == Exceptions.Format
  {
    if s == [] || !IsDigit(s[0]) then Err(Exceptions.Format)
    else
      var (index, i) := ReadNumber(s, 0, 0);
      if i == |s| || index >= argCount then Err(Exceptions.Format)
      else
        var j := SkipSpaces(s, i);
        if j < |s| && s[j] == ',' then ParseAlignment(s, j + 1, index)
        else ItemEnd(s, j, Item(index, false, 0, 0))
  }

  /** The rest of an item after the comma of its alignment, from `s[i]`: spaces, an optional minus, the width. */
  function ParseAlignment(s: string, i: nat, index: nat): (r: Result<Item>)
    requires i <= |s|
    ensures r.Ok? ==> r.value.index == index && i < r.value.end <= |s| && s[r.value.end - 1] == '}'
    ensures r.Err? ==> r.error == Exceptions.Format
  {
    var k := SkipSpaces(s, i);
    var left := k < |s| && s[k] == '-';
    var k' := if left then k + 1 else k;
    if k' == |s| || !IsDigit(s[k']) then Err(Exceptions.Format)
    else
      var (width, m) := ReadNumber(s, k', 0);
      if m == |s| then Err(Exceptions.Format) else ItemEnd(s, m, Item(index, left, width, 0))
  }

  /** The rest of an item from `s[i]`: spaces, an optional format string, the closing brace. */
  function ItemEnd(s: string, i: nat, item: Item): (r: Result<Item>)
    requires i <= |s|
    ensures r.Ok? ==> r.value == item.(end := r.value.end) && i < r.value.end <= |s| && s[r.value.end - 1] == '}'
    ensures r.Err? ==> r.error == Exceptions.Format
  {
    var n := SkipSpaces(s, i);
    if n < |s| && s[n] == ':' then
      match FormatStringEnd(s, n + 1)
      case Err(e) => Err(e)
      case Ok(e) => Ok(item.(end := e + 1))
    else if n < |s| && s[n] == '}' then Ok(item.(end := n + 1))
    else Err(Exceptions.Format)
  }

  /** `n` spaces. */
  function Spaces(n: nat): (r: string)
    ensures |r| == n && forall k | 0 <= k < n :: r[k] == ' '
  {
    seq(n, _ => ' ')
  }

  /** A formatted argument padded with spaces to `width`: on the right when left-aligned, else on the left. */
  function Aligned(s: string, leftAligned: bool, width: nat): (r: string)
    ensures |r| == if width > |s| then width else |s|
    ensures leftAligned ==> r[..|s|] == s && forall k | |s| <= k < |r| :: r[k] == ' '
    ensures !leftAligned ==> r[|r| - |s|..] == s && forall k | 0 <= k < |r| - |s| :: r[k] == ' '
  {
    if width <= |s| then s
    else if leftAligned then s + Spaces(width - |s|)
    else Spaces(width - |s|) + s
  }

  /**
   * `string.Format(pattern, args)`: `{{` and `}}` stand for a brace and a
   * format item for its argument, aligned to the item's width; a malformed
   * item, an index past the end of `args` or a lone `}` raise
   * FormatException.
   */
  function Format(pattern: string, args: seq<string>): (r: Result<string>)
    ensures r.Err? ==> r.error == Exceptions.Format
    decreases |pattern|
  {
    if pattern == [] then Ok([])
    else if pattern[0] == '{' then
      if |pattern| >= 2 && pattern[1] == '{' then Prepend("{", Format(pattern[2..], args))
      else
        match ParseItem(pattern[1..], |args|)
        case Err(e) => Err(e)
        case Ok(item) =>
          Prepend(Aligned(args[item.index], item.leftAligned, item.width), Format(pattern[1 + item.end..], args))
    else if pattern[0] == '}' then
      if |pattern| >= 2 && pattern[1] == '}' then Prepend("}", Format(pattern[2..], args))
      else Err(Exceptions.Format)
    else Prepend([pattern[0]], Format(pattern[1..], args))
  }

  function Prepend(s: string, r: Result<string>): (p: Result<string>)
    ensures p.Err? <==> r.Err?
    ensures p.Err? ==> p.error == r.error
  {
    match r
    case Ok(t) => Ok(s + t)
    case Err(e) => Err(e)
  }

  predicate NoBraces(s: string) {
    forall i | 0 <= i < |s| :: s[i] != '{' && s[i] != '}'
  }

  /** A pattern without braces formats to itself, whatever the arguments. */
  lemma {:induction false} FormatWithoutBraces(pattern: string, args: seq<string>)
    requires NoBraces(pattern)
    ensures Format(pattern, args) == Ok(pattern)
  {
    if pattern != [] {
      assert NoBraces(pattern[1..]);
      FormatWithoutBraces(pattern[1..], args);
      assert [pattern[0]] + pattern[1..] == pattern;
    }
  }

  /** A placeholder is replaced by its argument. */
  lemma {:induction false} FormatPlaceholder(prefix: string, arg: string, suffix: string, args: seq<string>)
    requires NoBraces(prefix) && NoBraces(suffix) && |args| == 1 && args[0] == arg
    ensures Format(prefix + "{0}" + suffix, args) == Ok(prefix + arg + suffix)
  {
    if prefix == [] {
      var p := "{0}" + suffix;
      assert prefix + "{0}" + suffix == p && prefix + arg + suffix == arg + suffix;
      var item := p[1..];
      assert item == "0}" + suffix;
      assert ReadNumber(item, 1, 0) == (0, 1);
      assert SkipSpaces(item, 1) == 1;
      assert ParseItem(item, 1) == Ok(Item(0, false, 0, 2));
      assert p[3..] == suffix;
      FormatWithoutBraces(suffix, args);
    } else {
      var p := prefix + "{0}" + suffix;
      assert p[0] == prefix[0];
      assert p[1..] == prefix[1..] + "{0}" + suffix;
      assert NoBraces(prefix[1..]);
      FormatPlaceholder(prefix[1..], arg, suffix, args);
      assert [prefix[0]] + (prefix[1..] + arg + suffix) == prefix + arg + suffix;
    }
  }

  /** Brace-free text before a pattern is copied to the front of its result. */
  lemma {:induction false} FormatBraceFreePrefix(prefix: string, rest: string, args: seq<string>)
    requires NoBraces(prefix)
    ensures Format(prefix + rest, args) == Prepend(prefix, Format(rest, args))
  {
    if prefix != [] {
      var p := prefix + rest;
      assert p[0] == prefix[0] && p[1..] == prefix[1..] + rest;
      assert NoBraces(prefix[1..]);
      FormatBraceFreePrefix(prefix[1..], rest, args);
      match Format(rest, args)
      case Ok(t) => assert [prefix[0]] + (prefix[1..] + t) == prefix + t;
      case Err(_) =>
    } else {
      assert prefix + rest == rest;
      match Format(rest, args)
      case Ok(t) => assert prefix + t == t;
      case Err(_) =>
    }
  }

  /** A pattern opening with a well-formed item followed by brace-free text. */
  lemma FormatLeadingItem(p: string, args: seq<string>, parsed: Item)
    requires |p| >= 2 && p[0] == '{' && p[1] != '{'
    requires ParseItem(p[1..], |args|) == Ok(parsed) && NoBraces(p[1 + parsed.end..])
    ensures Format(p, args) == Ok(Aligned(args[parsed.index], parsed.leftAligned, parsed.width) + p[1 + parsed.end..])
  {
    FormatWithoutBraces(p[1 + parsed.end..], args);
  }

  /** One well-formed item between brace-free texts is replaced by its aligned argument. */
  lemma FormatOneItem(prefix: string, p: string, args: seq<string>, parsed: Item)
    requires NoBraces(prefix) && |p| >= 2 && p[0] == '{' && p[1] != '{'
    requires ParseItem(p[1..], |args|) == Ok(parsed) && NoBraces(p[1 + parsed.end..])
    ensures Format(prefix + p, args)
         == Ok(prefix + (Aligned(args[parsed.index], parsed.leftAligned, parsed.width) + p[1 + parsed.end..]))
  {
    FormatLeadingItem(p, args, parsed);
    FormatBraceFreePrefix(prefix, p, args);
  }

  /** An item with a width: `{0,3}`. */
  lemma ParsesWidth(suffix: string)
    requires NoBraces(suffix)
    ensures ParseItem("0,3}" + suffix, 1) == Ok(Item(0, false, 3, 4))
  {
    var item := "0,3}" + suffix;
    assert item[0] == '0' && item[1] == ',' && item[2] == '3' && item[3] == '}';
    assert ReadNumber(item, 1, 0) == (0, 1);
    assert SkipSpaces(item, 1) == 1;
    assert ParseAlignment(item, 2, 0) == Ok(Item(0, false, 3, 4)) by {
      assert SkipSpaces(item, 2) == 2;
      assert ReadNumber(item, 3, 3) == (3, 3);
      assert SkipSpaces(item, 3) == 3;
    }
  }

  /** An item with a format string: `{0:x}`. */
  lemma ParsesFormatString(suffix: string)
    requires NoBraces(suffix)
    ensures ParseItem("0:x}" + suffix, 1) == Ok(Item(0, false, 0, 4))
  {
    var item := "0:x}" + suffix;
    assert item[0] == '0' && item[1] == ':' && item[2] == 'x' && item[3] == '}';
    assert ReadNumber(item, 1, 0) == (0, 1);
    assert SkipSpaces(item, 1) == 1;
    assert FormatStringEnd(item, 2) == Ok(3) by {
      assert FormatStringEnd(item, 3) == Ok(3);
    }
  }

  /** An item with a space before its closing brace: `{0 }`. */
  lemma ParsesSpaceBeforeBrace(suffix: string)
    requires NoBraces(suffix)
    ensures ParseItem("0 }" + suffix, 1) == Ok(Item(0, false, 0, 3))
  {
    var item := "0 }" + suffix;
    assert item[0] == '0' && item[1] == ' ' && item[2] == '}';
    assert ReadNumber(item, 1, 0) == (0, 1);
    assert SkipSpaces(item, 1) == 2 by {
      assert SkipSpaces(item, 2) == 2;
    }
  }

  /** An item with a width pads its argument on the left: `{0,3}` formats "1" as "  1". */
  lemma AlignedItem(prefix: string, suffix: string)
    requires NoBraces(prefix) && NoBraces(suffix)
    ensures Format(prefix + "{0,3}" + suffix, ["1"]) == Ok(prefix + "  1" + suffix)
  {
    var p := "{0,3}" + suffix;
    assert p[0] == '{' && p[1] == '0' && p[1..] == "0,3}" + suffix && p[5..] == suffix;
    ParsesWidth(suffix);
    FormatOneItem(prefix, p, ["1"], Item(0, false, 3, 4));
    assert Aligned("1", false, 3) == "  1";
    assert prefix + "{0,3}" + suffix == prefix + p;
    assert prefix + ("  1" + suffix) == prefix + "  1" + suffix;
  }

  /** A string argument ignores the format string of its item: `{0:x}` formats an argument as itself. */
  lemma FormatStringIgnored(prefix: string, arg: string, suffix: string)
    requires NoBraces(prefix) && NoBraces(suffix)
    ensures Format(prefix + "{0:x}" + suffix, [arg]) == Ok(prefix + arg + suffix)
  {
    var p := "{0:x}" + suffix;
    assert p[0] == '{' && p[1] == '0' && p[1..] == "0:x}" + suffix && p[5..] == suffix;
    ParsesFormatString(suffix);
    FormatOneItem(prefix, p, [arg], Item(0, false, 0, 4));
    assert prefix + "{0:x}" + suffix == prefix + p;
    assert prefix + (arg + suffix) == prefix + arg + suffix;
  }

  /** Spaces may precede the closing brace: `{0 }` formats an argument as itself. */
  lemma SpacesBeforeClosingBrace(prefix: string, arg: string, suffix: string)
    requires NoBraces(prefix) && NoBraces(suffix)
    ensures Format(prefix + "{0 }" + suffix, [arg]) == Ok(prefix + arg + suffix)
  {
    var p := "{0 }" + suffix;
    assert p[0] == '{' && p[1] == '0' && p[1..] == "0 }" + suffix && p[4..] == suffix;
    ParsesSpaceBeforeBrace(suffix);
    FormatOneItem(prefix, p, [arg], Item(0, false, 0, 3));
    assert prefix + "{0 }" + suffix == prefix + p;
    assert prefix + (arg + suffix) == prefix + arg + suffix;
  }
}
