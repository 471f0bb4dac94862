/** `Build::Name`: the spellings derived from a target's name. Text is
    rewritten with Ruby's regular-expression substitutions; `\s` is
    `[ \t\r\n\f\v]`, `upcase`/`downcase` are taken on ASCII letters. */
module Names {
  import opened Values
  import opened Rules

  // ---------------------------------------------------------------------
  // Characters

  /** `\s`. */
  predicate Space(c: char) {
    c == ' ' || c == '\t' || c == '\r' || c == '\n' || c == '\U{000C}' || c == '\U{000B}'
  }

  /** What `String#strip` removes: `\s` and NUL. */
  predicate StripSpace(c: char) {
    Space(c) || c == '\0'
  }

  predicate Lower(c: char) {
    'a' <= c <= 'z'
  }

  predicate Upper(c: char) {
    'A' <= c <= 'Z'
  }

  function Up(c: char): (r: char)
    ensures !Lower(r)
    ensures Lower(c) ==> Upper(r)
    ensures !Lower(c) ==> r == c
  {
    if Lower(c) then (c as int - 32) as char else c
  }

  function Down(c: char): (r: char)
    ensures !Upper(r)
    ensures Upper(c) ==> Lower(r)
    ensures !Upper(c) ==> r == c
  {
    if Upper(c) then (c as int + 32) as char else c
  }

  /** Lower-casing after upper-casing is lower-casing. */
  lemma DownUp(c: char)
    ensures Down(Up(c)) == Down(c)
  {
    if Lower(c) {
      assert Up(c) as int == c as int - 32;
    }
  }

  function Upcase(s: string): (r: string)
    ensures |r| == |s| && forall i :: 0 <= i < |r| ==> !Lower(r[i])
  {
    Substitute(s, Up)
  }

  function Downcase(s: string): (r: string)
    ensures |r| == |s| && forall i :: 0 <= i < |r| ==> !Upper(r[i])
  {
    Substitute(s, Down)
  }

  /** Every character of `s` satisfies `p`. */
  predicate All(s: string, p: char -> bool) {
    forall i :: 0 <= i < |s| ==> p(s[i])
  }

  predicate NoSpace(s: string) {
    forall i :: 0 <= i < |s| ==> !Space(s[i])
  }

  // ---------------------------------------------------------------------
  // `gsub(/\s+/, sep)`

  /** `s` without its leading `\s` characters. */
  function SkipSpace(s: string): (r: string)
    ensures |r| <= |s| && r == s[|s| - |r|..]
    ensures r == [] || !Space(r[0])
    ensures forall i :: 0 <= i < |s| - |r| ==> Space(s[i])
  {
    if s != [] && Space(s[0]) then SkipSpace(s[1..]) else s
  }

  /** `s.gsub(/\s+/, sep)`: every maximal run of `\s` becomes `sep`. */
  function Squeeze(s: string, sep: string): (r: string)
    ensures NoSpace(sep) ==> NoSpace(r)
    decreases |s|
  {
    if s == [] then []
    else if Space(s[0]) then sep + Squeeze(SkipSpace(s[1..]), sep)
    else [s[0]] + Squeeze(s[1..], sep)
  }

  /** Text without whitespace is left as it is. */
  lemma {:induction false} SqueezeFixed(s: string, sep: string)
    requires NoSpace(s)
    ensures Squeeze(s, sep) == s
  {
    if s != [] {
      SqueezeFixed(s[1..], sep);
    }
  }

  /** The characters of `s` that are not `\s`, in order. */
  function Removed(s: string): (r: string) {
    if s == [] then []
    else if Space(s[0]) then Removed(s[1..])
    else [s[0]] + Removed(s[1..])
  }

  lemma {:induction false} RemovedSkip(s: string)
    ensures Removed(SkipSpace(s)) == Removed(s)
  {
    if s != [] && Space(s[0]) {
      RemovedSkip(s[1..]);
    }
  }

  /** Replacing the runs by nothing removes every `\s` character. */
  lemma {:induction false} SqueezeNothing(s: string)
    ensures Squeeze(s, "") == Removed(s)
    decreases |s|
  {
    if s != [] {
      if Space(s[0]) {
        SqueezeNothing(SkipSpace(s[1..]));
        RemovedSkip(s[1..]);
      } else {
        SqueezeNothing(s[1..]);
      }
    }
  }

  lemma {:induction false} SkipSpaceMapped(s: string, f: char -> char)
    requires forall c :: Space(f(c)) <==> Space(c)
    ensures SkipSpace(Substitute(s, f)) == Substitute(SkipSpace(s), f)
  {
    if s != [] {
      assert Substitute(s, f)[1..] == Substitute(s[1..], f);
      if Space(s[0]) {
        SkipSpaceMapped(s[1..], f);
      }
    }
  }

  /** A character mapping that keeps whitespace whitespace, and nothing else,
      commutes with squeezing, when it leaves the separator alone. */
  lemma {:induction false} SqueezeMapped(s: string, sep: string, f: char -> char)
    requires forall c :: Space(f(c)) <==> Space(c)
    requires Substitute(sep, f) == sep
    ensures Substitute(Squeeze(s, sep), f) == Squeeze(Substitute(s, f), sep)
    decreases |s|
  {
    if s != [] {
      var t := Substitute(s, f);
      assert t[0] == f(s[0]) && t[1..] == Substitute(s[1..], f);
      if Space(s[0]) {
        SqueezeMapped(SkipSpace(s[1..]), sep, f);
        SkipSpaceMapped(s[1..], f);
        SubstituteAppend(sep, Squeeze(SkipSpace(s[1..]), sep), f);
      } else {
        SqueezeMapped(s[1..], sep, f);
        SubstituteAppend([s[0]], Squeeze(s[1..], sep), f);
      }
    }
  }

  lemma SubstituteAppend(a: string, b: string, f: char -> char)
    ensures Substitute(a + b, f) == Substitute(a, f) + Substitute(b, f)
  {
    var l := Substitute(a + b, f);
    var r := Substitute(a, f) + Substitute(b, f);
    assert |l| == |r|;
    forall i | 0 <= i < |l|
      ensures l[i] == r[i]
    {
      if i < |a| {
        assert (a + b)[i] == a[i];
      } else {
        assert (a + b)[i] == b[i - |a|];
      }
    }
  }

  // ---------------------------------------------------------------------
  // `join`

  /** The parts, each preceded by `sep`. */
  function Prefixed(parts: seq<string>, sep: string): string {
    if parts == [] then [] else sep + parts[0] + Prefixed(parts[1..], sep)
  }

  /** `parts.join(sep)`. */
  function Join(parts: seq<string>, sep: string): string {
    if parts == [] then [] else parts[0] + Prefixed(parts[1..], sep)
  }

  lemma {:induction false} PrefixedAll(parts: seq<string>, sep: string, p: char -> bool)
    requires All(sep, p) && forall i :: 0 <= i < |parts| ==> All(parts[i], p)
    ensures All(Prefixed(parts, sep), p)
  {
    if parts != [] {
      PrefixedAll(parts[1..], sep, p);
      var tail := Prefixed(parts[1..], sep);
      var whole := sep + parts[0] + tail;
      forall i | 0 <= i < |whole|
        ensures p(whole[i])
      {
        if i < |sep| {
          assert whole[i] == sep[i];
        } else if i < |sep| + |parts[0]| {
          assert whole[i] == parts[0][i - |sep|];
        } else {
          assert whole[i] == tail[i - |sep| - |parts[0]|];
        }
      }
    }
  }

  /** Joining keeps any property all parts and the separator have. */
  lemma JoinAll(parts: seq<string>, sep: string, p: char -> bool)
    requires All(sep, p) && forall i :: 0 <= i < |parts| ==> All(parts[i], p)
    ensures All(Join(parts, sep), p)
  {
    if parts != [] {
      PrefixedAll(parts[1..], sep, p);
      var tail := Prefixed(parts[1..], sep);
      forall i | 0 <= i < |parts[0] + tail|
        ensures p((parts[0] + tail)[i])
      {
        if i < |parts[0]| {
          assert (parts[0] + tail)[i] == parts[0][i];
        } else {
          assert (parts[0] + tail)[i] == tail[i - |parts[0]|];
        }
      }
    }
  }

  // ---------------------------------------------------------------------
  // The spellings

  /** `identifier`: the text without whitespace. */
  function Identifier(text: string): (r: string)
    ensures NoSpace(r)
  {
    Squeeze(text, "")
  }

  /** The identifier keeps every other character, in order. */
  lemma IdentifierRemovesWhitespace(text: string)
    ensures Identifier(text) == Removed(text)
  {
    SqueezeNothing(text);
  }

  /** `target`: whitespace runs become '-', then lower case. */
  function Target(text: string): (r: string)
    ensures NoSpace(r) && forall i :: 0 <= i < |r| ==> !Upper(r[i])
  {
    var squeezed := Squeeze(text, "-");
    assert forall i :: 0 <= i < |squeezed| ==> (Space(Down(squeezed[i])) <==> Space(squeezed[i]));
    Downcase(squeezed)
  }

  /** A target name is its own target name. */
  lemma TargetIdempotent(text: string)
    ensures Target(Target(text)) == Target(text)
  {
    var t := Target(text);
    SqueezeFixed(t, "-");
    assert Downcase(t) == t;
  }

  /** One part of a key: lower case, whitespace runs as '_'. */
  function KeyPart(part: string): string {
    Squeeze(Downcase(part), "_")
  }

  function KeyParts(parts: seq<string>): (r: seq<string>)
    ensures |r| == |parts| && forall i :: 0 <= i < |r| ==> r[i] == KeyPart(parts[i])
  {
    if parts == [] then [] else [KeyPart(parts[0])] + KeyParts(parts[1..])
  }

  /** `key(*postfix)` computed afresh: the text and the postfixes as key
      parts, joined with '_'. */
  function KeyOf(text: string, postfix: seq<string>): (r: string)
    ensures NoSpace(r) && forall i :: 0 <= i < |r| ==> !Upper(r[i])
  {
    var parts := KeyParts([text] + postfix);
    forall i | 0 <= i < |parts|
      ensures All(parts[i], c => !Space(c) && !Upper(c))
    {
      DownSpace();
      assert KeyPart(([text] + postfix)[i]) == parts[i];
      SqueezeMapped(Downcase(([text] + postfix)[i]), "_", Down);
      assert Downcase(Downcase(([text] + postfix)[i])) == Downcase(([text] + postfix)[i]);
    }
    JoinAll(parts, "_", c => !Space(c) && !Upper(c));
    Join(parts, "_")
  }

  lemma DownSpace()
    ensures forall c :: Space(Down(c)) <==> Space(c)
    ensures forall c :: Space(Up(c)) <==> Space(c)
  {
  }

  /** One part of a macro: upper case, whitespace runs as '_'. */
  function MacroPart(part: string): string {
    Squeeze(Upcase(part), "_")
  }

  function MacroParts(parts: seq<string>): (r: seq<string>)
    ensures |r| == |parts| && forall i :: 0 <= i < |r| ==> r[i] == MacroPart(parts[i])
  {
    if parts == [] then [] else [MacroPart(parts[0])] + MacroParts(parts[1..])
  }

  /** `macro(prefix)`: the prefix parts and the text as macro parts, joined
      with '_'. */
  function Macro(prefix: seq<string>, text: string): (r: string)
    ensures NoSpace(r) && forall i :: 0 <= i < |r| ==> !Lower(r[i])
  {
    var parts := MacroParts(prefix + [text]);
    forall i | 0 <= i < |parts|
      ensures All(parts[i], c => !Space(c) && !Lower(c))
    {
      DownSpace();
      assert MacroPart((prefix + [text])[i]) == parts[i];
      SqueezeMapped(Upcase((prefix + [text])[i]), "_", Up);
      assert Upcase(Upcase((prefix + [text])[i])) == Upcase((prefix + [text])[i]);
    }
    JoinAll(parts, "_", c => !Space(c) && !Lower(c));
    Join(parts, "_")
  }

  /** A one-part key is the lower-case form of the one-part macro. */
  lemma KeyIsLowerMacro(text: string)
    ensures KeyOf(text, []) == Downcase(Macro([], text))
  {
    DownSpace();
    assert KeyParts([text]) == [KeyPart(text)];
    assert MacroParts([] + [text]) == [MacroPart(text)];
    assert KeyOf(text, []) == KeyPart(text);
    assert Macro([], text) == MacroPart(text);
    assert Substitute("_", Down) == "_";
    SqueezeMapped(Upcase(text), "_", Down);
    assert Downcase(Upcase(text)) == Downcase(text) by {
      forall i | 0 <= i < |text|
        ensures Downcase(Upcase(text))[i] == Downcase(text)[i]
      {
        DownUp(text[i]);
      }
    }
  }

  /** `header_guard(path)`: the macro with the path as its prefix, then `_H`. */
  function HeaderGuard(path: string, text: string): (r: string)
    ensures |r| >= 2 && r[|r| - 2..] == "_H"
    ensures NoSpace(r) && forall i :: 0 <= i < |r| ==> !Lower(r[i])
  {
    Macro([path], text) + "_H"
  }

  // ---------------------------------------------------------------------
  // `from_target`

  /** A separator of the `from_target` pattern `[ \-_]`. */
  predicate Separator(c: char) {
    c == ' ' || c == '-' || c == '_'
  }

  /** `string.gsub(/(^|[ \-_])(.)/) { " " + $2.upcase }`, scanning from a
      position that is (or is not) at the start of a line: at a line start
      the `^` alternative matches any character but a newline; elsewhere a
      separator followed by such a character matches; otherwise the
      character is kept and the scan moves on. */
  function Scan(s: string, lineStart: bool): string
    decreases |s|
  {
    if s == [] then []
    else if lineStart && s[0] != '\n' then " " + [Up(s[0])] + Scan(s[1..], false)
    else if Separator(s[0]) && |s| >= 2 && s[1] != '\n' then " " + [Up(s[1])] + Scan(s[2..], false)
    else [s[0]] + Scan(s[1..], s[0] == '\n')
  }

  /** The number of leading whitespace and NUL characters of `s`. */
  function LeadingSpaces(s: string): (n: nat)
    ensures n <= |s| && (n < |s| ==> !StripSpace(s[n]))
  {
    if s != [] && StripSpace(s[0]) then
      assert forall k :: 0 <= k < |s| - 1 ==> s[1..][k] == s[k + 1];
      1 + LeadingSpaces(s[1..])
    else 0
  }

  lemma {:induction false} LeadingSpacesAreSpaces(s: string, j: nat)
    requires j < LeadingSpaces(s)
    ensures StripSpace(s[j])
  {
    if j > 0 {
      LeadingSpacesAreSpaces(s[1..], j - 1);
    }
  }

  /** Where the trailing whitespace and NUL characters of `s` begin. */
  function TrailingStart(s: string): (n: nat)
    ensures n <= |s| && (n > 0 ==> !StripSpace(s[n - 1]))
  {
    if s != [] && StripSpace(s[|s| - 1]) then TrailingStart(s[..|s| - 1]) else |s|
  }

  lemma {:induction false} TrailingAreSpaces(s: string, j: nat)
    requires TrailingStart(s) <= j < |s|
    ensures StripSpace(s[j])
  {
    if j < |s| - 1 {
      TrailingAreSpaces(s[..|s| - 1], j);
    }
  }

  /** `String#lstrip`. */
  function StripLeft(s: string): string {
    s[LeadingSpaces(s)..]
  }

  /** `String#rstrip`. */
  function StripRight(s: string): string {
    s[..TrailingStart(s)]
  }

  /** `String#strip`: the slice of `s` after its leading and before its
      trailing whitespace and NULs; it neither starts nor ends with one. */
  function Strip(s: string): (r: string)
    ensures r == [] || (!StripSpace(r[0]) && !StripSpace(r[|r| - 1]))
    ensures var i := LeadingSpaces(s); i + |r| <= |s| && r == s[i..i + |r|]
  {
    var left := StripLeft(s);
    var r := StripRight(left);
    assert left[..|r|] == r;
    r
  }

  /** Everything `strip` removes is whitespace or NUL. */
  lemma StripRemovesOnlySpace(s: string, j: nat)
    requires j < |s| && (j < LeadingSpaces(s) || LeadingSpaces(s) + |Strip(s)| <= j)
    ensures StripSpace(s[j])
  {
    var i := LeadingSpaces(s);
    if j < i {
      LeadingSpacesAreSpaces(s, j);
    } else {
      var left := StripLeft(s);
      assert s[j] == left[j - i];
      TrailingAreSpaces(left, j - i);
    }
  }

  /** `Name.from_target(string).text`. */
  function TitleCase(target: string): string {
    Strip(Scan(target, true))
  }

  /** A word `from_target` turns into one capitalised word: not empty, with
      no separator, whitespace or NUL. */
  ghost predicate Plain(w: string) {
    w != [] && forall i :: 0 <= i < |w| ==> !Separator(w[i]) && !StripSpace(w[i])
  }

  function Capitalize(w: string): string {
    if w == [] then [] else [Up(w[0])] + w[1..]
  }

  function Capitalized(words: seq<string>): (r: seq<string>)
    ensures |r| == |words| && forall i :: 0 <= i < |r| ==> r[i] == Capitalize(words[i])
  {
    if words == [] then [] else [Capitalize(words[0])] + Capitalized(words[1..])
  }

  /** A character that neither separates nor ends a line is copied. */
  lemma ScanCopiesOne(s: string)
    requires s != [] && !Separator(s[0]) && s[0] != '\n'
    ensures Scan(s, false) == [s[0]] + Scan(s[1..], false)
  {
  }

  /** Characters that neither separate nor end a line are copied. */
  lemma {:induction false} ScanCopies(p: string, rest: string)
    requires forall i :: 0 <= i < |p| ==> !Separator(p[i]) && p[i] != '\n'
    ensures Scan(p + rest, false) == p + Scan(rest, false)
  {
    if p != [] {
      var s := p + rest;
      assert s[0] == p[0] && s[1..] == p[1..] + rest;
      ScanCopiesOne(s);
      ScanCopies(p[1..], rest);
      assert [p[0]] + (p[1..] + Scan(rest, false)) == p + Scan(rest, false);
    } else {
      assert p + rest == rest;
    }
  }

  /** At a line start, any character but a newline is matched. */
  lemma ScanLineStart(s: string)
    requires s != [] && s[0] != '\n'
    ensures Scan(s, true) == " " + [Up(s[0])] + Scan(s[1..], false)
  {
  }

  /** Elsewhere, a separator and the character after it are matched. */
  lemma ScanSeparator(s: string)
    requires |s| >= 2 && Separator(s[0]) && s[1] != '\n'
    ensures Scan(s, false) == " " + [Up(s[1])] + Scan(s[2..], false)
  {
  }

  /** After its first character, a plain word is copied by the scan. */
  lemma PlainTailCopied(w: string, rest: string)
    requires Plain(w)
    ensures Scan(w[1..] + rest, false) == w[1..] + Scan(rest, false)
  {
    assert forall i :: 0 <= i < |w[1..]| ==> w[1..][i] == w[i + 1];
    ScanCopies(w[1..], rest);
  }

  /** A separated plain word becomes a space and the capitalised word. */
  lemma ScanSeparatedWord(sep: char, w: string, rest: string)
    requires Separator(sep) && Plain(w)
    ensures Scan([sep] + w + rest, false) == " " + Capitalize(w) + Scan(rest, false)
  {
    var s := [sep] + w + rest;
    calc {
      Scan(s, false);
      == { assert s[0] == sep && s[1] == w[0] && s[2..] == w[1..] + rest; ScanSeparator(s); }
      " " + [Up(w[0])] + Scan(w[1..] + rest, false);
      == { PlainTailCopied(w, rest); }
      " " + [Up(w[0])] + (w[1..] + Scan(rest, false));
      == { Regroup(" ", [Up(w[0])], w[1..], Scan(rest, false)); }
      " " + Capitalize(w) + Scan(rest, false);
    }
  }

  /** A plain word at the start of a line becomes a space and the capitalised word. */
  lemma ScanLeadingWord(w: string, rest: string)
    requires Plain(w)
    ensures Scan(w + rest, true) == " " + Capitalize(w) + Scan(rest, false)
  {
    var s := w + rest;
    calc {
      Scan(s, true);
      == { assert s[0] == w[0] && s[1..] == w[1..] + rest; ScanLineStart(s); }
      " " + [Up(w[0])] + Scan(w[1..] + rest, false);
      == { PlainTailCopied(w, rest); }
      " " + [Up(w[0])] + (w[1..] + Scan(rest, false));
      == { Regroup(" ", [Up(w[0])], w[1..], Scan(rest, false)); }
      " " + Capitalize(w) + Scan(rest, false);
    }
  }

  /** Proof helper: four strings regrouped. */
  lemma Regroup(a: string, b: string, c: string, d: string)
    ensures a + b + (c + d) == a + (b + c) + d
  {
  }

  lemma {:induction false} ScanSeparatedWords(sep: char, words: seq<string>)
    requires Separator(sep) && forall i :: 0 <= i < |words| ==> Plain(words[i])
    ensures Scan(Prefixed(words, [sep]), false) == Prefixed(Capitalized(words), " ")
  {
    if words != [] {
      ScanSeparatedWords(sep, words[1..]);
      ScanSeparatedWord(sep, words[0], Prefixed(words[1..], [sep]));
      assert Capitalized(words)[1..] == Capitalized(words[1..]);
    }
  }

  lemma StripLeadingSpace(t: string)
    requires t != [] && !StripSpace(t[0]) && !StripSpace(t[|t| - 1])
    ensures Strip(" " + t) == t
  {
    var s := " " + t;
    assert s[1..] == t;
    assert LeadingSpaces(t) == 0;
    assert LeadingSpaces(s) == 1;
    assert TrailingStart(t) == |t|;
  }

  lemma {:induction false} PrefixedLast(parts: seq<string>, sep: string)
    requires parts != [] && parts[|parts| - 1] != []
    ensures var p := Prefixed(parts, sep); p != [] && p[|p| - 1] == parts[|parts| - 1][|parts[|parts| - 1]| - 1]
  {
    if parts[1..] != [] {
      PrefixedLast(parts[1..], sep);
    }
  }

  /** The scan of plain words joined by a separator is each capitalised
      word preceded by a space. */
  lemma ScanWords(sep: char, words: seq<string>)
    requires Separator(sep) && words != [] && forall i :: 0 <= i < |words| ==> Plain(words[i])
    ensures Scan(Join(words, [sep]), true) == " " + Join(Capitalized(words), " ")
  {
    ScanJoined(sep, words);
    JoinCapitalized(words);
    Regroup3(" ", Capitalize(words[0]), Prefixed(Capitalized(words[1..]), " "));
  }

  lemma ScanJoined(sep: char, words: seq<string>)
    requires Separator(sep) && words != [] && forall i :: 0 <= i < |words| ==> Plain(words[i])
    ensures Scan(Join(words, [sep]), true)
      == " " + Capitalize(words[0]) + Prefixed(Capitalized(words[1..]), " ")
  {
    var rest := Prefixed(words[1..], [sep]);
    assert Join(words, [sep]) == words[0] + rest;
    ScanLeadingWord(words[0], rest);
    ScanSeparatedWords(sep, words[1..]);
  }

  lemma JoinCapitalized(words: seq<string>)
    requires words != []
    ensures Join(Capitalized(words), " ") == Capitalize(words[0]) + Prefixed(Capitalized(words[1..]), " ")
  {
    assert Capitalized(words)[1..] == Capitalized(words[1..]);
  }

  /** Proof helper: three strings regrouped. */
  lemma Regroup3(a: string, b: string, c: string)
    ensures a + b + c == a + (b + c)
  {
  }

  /** A capitalised plain word neither starts nor ends with whitespace. */
  lemma CapitalizeEnds(w: string)
    requires Plain(w)
    ensures var c := Capitalize(w); c != [] && !StripSpace(c[0]) && !StripSpace(c[|c| - 1])
  {
    var c := Capitalize(w);
    assert c[0] == Up(w[0]);
    assert c[|c| - 1] == w[|w| - 1] || |w| == 1;
  }

  /** A join starts with the first part and ends with the last. */
  lemma JoinEnds(parts: seq<string>, sep: string)
    requires parts != [] && parts[0] != [] && parts[|parts| - 1] != []
    ensures var t := Join(parts, sep);
      t != [] && t[0] == parts[0][0] && t[|t| - 1] == parts[|parts| - 1][|parts[|parts| - 1]| - 1]
  {
    if parts[1..] != [] {
      PrefixedLast(parts[1..], sep);
      assert parts[1..][|parts[1..]| - 1] == parts[|parts| - 1];
    }
  }

  /** The capitalised words, joined, neither start nor end with whitespace. */
  lemma CapitalizedEnds(words: seq<string>)
    requires words != [] && forall i :: 0 <= i < |words| ==> Plain(words[i])
    ensures var t := Join(Capitalized(words), " ");
      t != [] && !StripSpace(t[0]) && !StripSpace(t[|t| - 1])
  {
    var caps := Capitalized(words);
    CapitalizeEnds(words[0]);
    CapitalizeEnds(words[|words| - 1]);
    JoinEnds(caps, " ");
  }

  /** `from_target` capitalises each word of a name whose words are joined
      by one of ' ', '-', '_', and joins them with single spaces. */
  lemma TitleCaseOfWords(sep: char, words: seq<string>)
    requires Separator(sep) && words != [] && forall i :: 0 <= i < |words| ==> Plain(words[i])
    ensures TitleCase(Join(words, [sep])) == Join(Capitalized(words), " ")
  {
    ScanWords(sep, words);
    CapitalizedEnds(words);
    StripLeadingSpace(Join(Capitalized(words), " "));
  }

  /** "foo-bar" becomes "Foo Bar". */
  lemma TitleCaseExample()
    ensures TitleCase("foo-bar") == "Foo Bar"
  {
    var words := ["foo", "bar"];
    assert words[1..] == ["bar"] && ["bar"][1..] == [];
    assert Prefixed(["bar"], "-") == "-bar";
    assert Join(words, "-") == "foo-bar";
    assert Plain(words[0]) && Plain(words[1]);
    TitleCaseOfWords('-', words);
    assert Capitalize("foo") == "Foo" && Capitalize("bar") == "Bar";
    var caps := Capitalized(words);
    assert caps == ["Foo", "Bar"];
    assert caps[1..] == ["Bar"] && ["Bar"][1..] == [];
    assert Prefixed(["Bar"], " ") == " Bar";
    assert Join(caps, " ") == "Foo Bar";
  }

  // ---------------------------------------------------------------------
  // The name object

  class Name {
    const text: string
    /** `@key`: the key computed by the first call. */
    var key: Option<string>

    constructor (text: string)
      ensures this.text == text && key.None?
    {
      this.text := text;
      key := None;
    }

    /** `Name.from_target(string)`. */
    static method FromTarget(target: string) returns (name: Name)
      ensures fresh(name) && name.text == TitleCase(target) && name.key.None?
    {
      name := new Name(TitleCase(target));
    }

    /** `key(*postfix)`: computed from the postfixes of the first call and
        remembered; the postfixes of later calls are ignored. */
    method Key(postfix: seq<string>) returns (k: string)
      modifies this
      ensures old(key).Some? ==> k == old(key).value
      ensures old(key).None? ==> k == KeyOf(text, postfix)
      ensures key == Some(k)
    {
      if key.None? {
        key := Some(KeyOf(text, postfix));
      }
      k := key.value;
    }
  }
}
