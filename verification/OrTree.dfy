/** The prefix-binary OR search key the mail lane prints, read back by the part of the grammar of
    section 6.4.4 of RFC 3501 that can begin such a key: TEXT with a quoted string (section 9) and
    OR. The other search keys, and a TEXT whose argument is an atom or a literal, are not read. */
module OrTree {
  import opened Prelude

  datatype Key = Text(word: string) | Or(left: Key, right: Key)

  // ---- The printer -----------------------------------------------------------

  function TextKey(w: string): string { "TEXT \"" + w + "\"" }

  /** An empty list has no rendering: the recursion never ends on it, and callers check first. */
  function Print(words: seq<string>): string
    requires words != []
  {
    var n := |words| - 1;
    if n == 0 then TextKey(words[0]) else "OR " + Print(words[..n]) + " " + TextKey(words[n])
  }

  // ---- The grammar -----------------------------------------------------------

  /** Any 7-bit character but NUL, CR and LF. */
  predicate TextChar(c: char) { '\U{1}' <= c <= '\U{7F}' && c != '\r' && c != '\n' }

  predicate Special(c: char) { c == '"' || c == '\\' }

  /** The rest of a quoted string, after its opening quote: its content, and what follows it. */
  function ParseQuoted(s: string): (r: Option<(string, string)>)
    ensures r.Some? ==> |r.value.1| < |s|
  {
    if s == "" then None
    else if s[0] == '"' then Some(("", s[1..]))
    else if s[0] == '\\' then
      if |s| < 2 || !Special(s[1]) then None
      else
        match ParseQuoted(s[2..])
        case None => None
        case Some(p) => Some(([s[1]] + p.0, p.1))
    else if !TextChar(s[0]) then None
    else
      match ParseQuoted(s[1..])
      case None => None
      case Some(p) => Some(([s[0]] + p.0, p.1))
  }

  function ParseKey(s: string): (r: Option<(Key, string)>)
    ensures r.Some? ==> |r.value.1| < |s|
    decreases |s|
  {
    if "TEXT \"" <= s then
      match ParseQuoted(s[6..])
      case None => None
      case Some(p) => Some((Text(p.0), p.1))
    else if "OR " <= s then
      match ParseKey(s[3..])
      case None => None
      case Some(l) =>
        if !(" " <= l.1) then None
        else
          match ParseKey(l.1[1..])
          case None => None
          case Some(r) => Some((Or(l.0, r.0), r.1))
    else None
  }

  /** Which messages a key selects, given which words a message contains. */
  predicate Eval(k: Key, has: string -> bool) {
    match k
    case Text(w) => has(w)
    case Or(l, r) => Eval(l, has) || Eval(r, has)
  }

  ghost predicate MeansAnyOf(k: Key, words: seq<string>) {
    forall has: string -> bool :: Eval(k, has) <==> exists w | w in words :: has(w)
  }

  /** The text reads back, with nothing left over, as: some one of these words. */
  ghost predicate SearchesFor(text: string, words: seq<string>) {
    var r := ParseKey(text);
    r.Some? && r.value.1 == "" && MeansAnyOf(r.value.0, words)
  }

  predicate Plain(w: string) { forall c | c in w :: TextChar(c) && !Special(c) }

  predicate AllPlain(words: seq<string>) { forall w | w in words :: Plain(w) }

  /** A plain word, character by character: 7-bit, and no quote, backslash, CR, LF or NUL. */
  lemma PlainIff(w: string)
    ensures Plain(w) <==>
              forall i | 0 <= i < |w| :: 0 < w[i] as int < 128 && w[i] !in ['"', '\\', '\r', '\n']
  {
    forall i | 0 <= i < |w| && Plain(w)
      ensures TextChar(w[i]) && !Special(w[i])
    {
      assert w[i] in w;
    }
  }

  // ---- Plain words read back -------------------------------------------------

  function Tree(words: seq<string>): Key
    requires words != []
  {
    var n := |words| - 1;
    if n == 0 then Text(words[0]) else Or(Tree(words[..n]), Text(words[n]))
  }

  lemma {:induction false} TreeMeansAny(words: seq<string>)
    requires words != []
    ensures MeansAnyOf(Tree(words), words)
  {
    var n := |words| - 1;
    if n > 0 {
      TreeMeansAny(words[..n]);
      forall has: string -> bool
        ensures Eval(Tree(words), has) <==> exists w | w in words :: has(w)
      {
        assert Eval(Tree(words[..n]), has) <==> exists w | w in words[..n] :: has(w);
        assert words == words[..n] + [words[n]];
      }
    } else {
      assert words == [words[0]];
    }
  }

  lemma {:induction false} ParsePlain(w: string, rest: string)
    requires Plain(w)
    ensures ParseQuoted(w + "\"" + rest) == Some((w, rest))
  {
    var s := w + "\"" + rest;
    if w == "" {
      assert s[0] == '"' && s[1..] == rest;
    } else {
      assert w[0] in w && s[0] == w[0] && s[1..] == w[1..] + "\"" + rest;
      ParsePlain(w[1..], rest);
      assert w == [w[0]] + w[1..];
    }
  }

  lemma ParseText(w: string, rest: string)
    requires Plain(w)
    ensures ParseKey(TextKey(w) + rest) == Some((Text(w), rest))
  {
    var s := TextKey(w) + rest;
    assert s[..6] == "TEXT \"";
    assert s[6..] == w + "\"" + rest;
    ParsePlain(w, rest);
  }

  lemma ParseOrOf(u: string, l: Key, v: string, r: Key, rest: string)
    requires ParseKey(u) == Some((l, " " + v)) && ParseKey(v) == Some((r, rest))
    ensures ParseKey("OR " + u) == Some((Or(l, r), rest))
  {
    DropPrefix("OR ", u);
    DropPrefix(" ", v);
    assert ("OR " + u)[0] == 'O';
  }

  lemma ParseOr(l: Key, a: string, r: Key, b: string, rest: string)
    requires ParseKey(a + (" " + b + rest)) == Some((l, " " + b + rest))
    requires ParseKey(b + rest) == Some((r, rest))
    ensures ParseKey("OR " + a + " " + b + rest) == Some((Or(l, r), rest))
  {
    Regroup("OR ", a, " ", b, rest);
    ParseOrOf(a + (" " + b + rest), l, b + rest, r, rest);
  }

  lemma PrintedOr(words: seq<string>)
    requires |words| > 1
    ensures var n := |words| - 1;
            && Print(words) == "OR " + Print(words[..n]) + " " + TextKey(words[n])
            && Tree(words) == Or(Tree(words[..n]), Text(words[n]))
  {}

  lemma {:induction false} ParsePrinted(words: seq<string>, rest: string)
    requires words != [] && AllPlain(words)
    ensures ParseKey(Print(words) + rest) == Some((Tree(words), rest))
    decreases |words|
  {
    var n := |words| - 1;
    ParseText(words[n], rest);
    if n > 0 {
      ParsePrinted(words[..n], " " + TextKey(words[n]) + rest);
      ParseOr(Tree(words[..n]), Print(words[..n]), Text(words[n]), TextKey(words[n]), rest);
      PrintedOr(words);
    }
  }

  // ---- And only plain words --------------------------------------------------

  function Leaves(k: Key): seq<string> {
    match k
    case Text(w) => [w]
    case Or(l, r) => Leaves(l) + Leaves(r)
  }

  lemma {:induction false} EvalLeaves(k: Key, has: string -> bool)
    ensures Eval(k, has) <==> exists w | w in Leaves(k) :: has(w)
  {
    if k.Or? {
      EvalLeaves(k.left, has);
      EvalLeaves(k.right, has);
    } else {
      assert k.word in Leaves(k);
    }
  }

  lemma MeaningFixesLeaves(k: Key, words: seq<string>, w: string)
    requires MeansAnyOf(k, words)
    ensures w in Leaves(k) <==> w in words
  {
    var has := (x: string) => x == w;
    EvalLeaves(k, has);
    assert Eval(k, has) <==> exists x | x in words :: has(x);
    assert has(w);
  }

  /** A word as a quoted string must spell it. */
  function Escaped(w: string): string {
    if w == "" then ""
    else (if Special(w[0]) then ['\\', w[0]] else [w[0]]) + Escaped(w[1..])
  }

  function Spell(k: Key): string {
    match k
    case Text(w) => "TEXT \"" + Escaped(w) + "\""
    case Or(l, r) => "OR " + Spell(l) + " " + Spell(r)
  }

  lemma EscapedCons(c: char, w: string)
    ensures Escaped([c] + w) == (if Special(c) then ['\\', c] else [c]) + Escaped(w)
  {
    assert ([c] + w)[1..] == w;
  }

  /** One character read as `lead`, the rest spelled by its own reading. */
  lemma SpelledOneMore(lead: string, c: char, w: string, rest: string)
    requires lead == if Special(c) then ['\\', c] else [c]
    ensures lead + (Escaped(w) + "\"" + rest) == Escaped([c] + w) + "\"" + rest
  {
    EscapedCons(c, w);
    Regroup(lead, Escaped(w), "\"", rest, "");
  }

  lemma ReadOne(s: string)
    requires ParseQuoted(s).Some? && s[0] != '"' && s[0] != '\\'
    ensures ParseQuoted(s[1..]).Some? && !Special(s[0]) && TextChar(s[0])
    ensures ParseQuoted(s).value == ([s[0]] + ParseQuoted(s[1..]).value.0, ParseQuoted(s[1..]).value.1)
    ensures s == [s[0]] + s[1..]
  {}

  lemma ReadEscaped(s: string)
    requires ParseQuoted(s).Some? && s[0] == '\\'
    ensures |s| >= 2 && Special(s[1]) && ParseQuoted(s[2..]).Some?
    ensures ParseQuoted(s).value == ([s[1]] + ParseQuoted(s[2..]).value.0, ParseQuoted(s[2..]).value.1)
    ensures s == ['\\', s[1]] + s[2..]
  {}

  lemma ReadEnd(s: string)
    requires ParseQuoted(s).Some? && s[0] == '"'
    ensures ParseQuoted(s).value == ("", s[1..]) && s == Escaped("") + "\"" + s[1..]
  {}

  /** What the parser reads is spelled exactly so. */
  lemma {:induction false} QuotedIsEscaped(s: string) returns (w: string, rest: string)
    requires ParseQuoted(s).Some?
    ensures ParseQuoted(s).value == (w, rest)
    ensures s == Escaped(w) + "\"" + rest && forall c | c in w :: TextChar(c)
    decreases |s|
  {
    if s[0] == '"' {
      ReadEnd(s);
      return "", s[1..];
    }
    var tail: string;
    if s[0] == '\\' {
      ReadEscaped(s);
      tail, rest := QuotedIsEscaped(s[2..]);
      w := [s[1]] + tail;
      SpelledOneMore(['\\', s[1]], s[1], tail, rest);
    } else {
      ReadOne(s);
      tail, rest := QuotedIsEscaped(s[1..]);
      w := [s[0]] + tail;
      SpelledOneMore([s[0]], s[0], tail, rest);
    }
  }

  predicate LeavesReadable(k: Key) { forall w | w in Leaves(k) :: forall c | c in w :: TextChar(c) }

  lemma EscapedHead(w: string, tail: string)
    requires w != ""
    ensures Escaped(w) + tail == (if Special(w[0]) then ['\\', w[0]] else [w[0]]) + (Escaped(w[1..]) + tail)
  {}

  /** What is escaped is read as it was, and what follows the closing quote is left. */
  lemma {:induction false} EscapedIsRead(w: string, rest: string)
    requires forall c | c in w :: TextChar(c)
    ensures ParseQuoted(Escaped(w) + ("\"" + rest)) == Some((w, rest))
    decreases |w|
  {
    var tail := "\"" + rest;
    if w == "" {
      assert Escaped(w) + tail == tail && tail[1..] == rest;
    } else {
      var s := Escaped(w) + tail;
      var next := Escaped(w[1..]) + tail;
      EscapedIsRead(w[1..], rest);
      EscapedHead(w, tail);
      assert w[0] in w && w == [w[0]] + w[1..];
      if Special(w[0]) {
        assert s[0] == '\\' && s[1] == w[0] && s[2..] == next;
      } else {
        assert s[0] == w[0] && s[1..] == next;
      }
    }
  }

  lemma SpelledTextIsRead(w: string, rest: string)
    requires forall c | c in w :: TextChar(c)
    ensures ParseKey(Spell(Text(w)) + rest) == Some((Text(w), rest))
  {
    var s := Spell(Text(w)) + rest;
    EscapedIsRead(w, rest);
    assert s == "TEXT \"" + (Escaped(w) + ("\"" + rest));
    assert s[6..] == Escaped(w) + ("\"" + rest);
  }

  /** Every key of words without CR, LF, NUL and 8-bit characters, properly spelled, is read back. */
  lemma {:induction false} SpelledIsRead(k: Key, rest: string)
    requires LeavesReadable(k)
    ensures ParseKey(Spell(k) + rest) == Some((k, rest))
    decreases k
  {
    match k
    case Text(w) =>
      assert w in Leaves(k);
      SpelledTextIsRead(w, rest);
    case Or(l, r) =>
      assert forall w | w in Leaves(l) || w in Leaves(r) :: w in Leaves(k);
      SpelledIsRead(l, " " + Spell(r) + rest);
      SpelledIsRead(r, rest);
      ParseOr(l, Spell(l), r, Spell(r), rest);
  }

  /** Whatever the reader accepts is spelled, quote by quote, as what it read. */
  lemma {:induction false} ParsedIsSpelled(s: string)
    requires ParseKey(s).Some?
    ensures s == Spell(ParseKey(s).value.0) + ParseKey(s).value.1
    ensures LeavesReadable(ParseKey(s).value.0)
    decreases |s|
  {
    if "TEXT \"" <= s {
      TextIsSpelled(s);
    } else {
      var mid := ParseKey(s[3..]).value.1;
      ParsedIsSpelled(s[3..]);
      ParsedIsSpelled(mid[1..]);
      OrIsSpelled(s, ParseKey(s[3..]).value.0, mid, ParseKey(mid[1..]).value.0, ParseKey(mid[1..]).value.1);
    }
  }

  lemma TextIsSpelled(s: string)
    requires "TEXT \"" <= s && ParseKey(s).Some?
    ensures s == Spell(ParseKey(s).value.0) + ParseKey(s).value.1
    ensures LeavesReadable(ParseKey(s).value.0)
  {
    var w, rest := QuotedIsEscaped(s[6..]);
    assert s == "TEXT \"" + s[6..];
    Regroup("TEXT \"", Escaped(w), "\"", rest, "");
  }

  lemma OrIsSpelled(s: string, l: Key, mid: string, r: Key, rest: string)
    requires "OR " <= s && s[3..] == Spell(l) + mid && LeavesReadable(l)
    requires " " <= mid && mid[1..] == Spell(r) + rest && LeavesReadable(r)
    ensures s == Spell(Or(l, r)) + rest && LeavesReadable(Or(l, r))
  {
    SpelledOr(s, l, mid, r, rest);
  }

  lemma SpelledOr(s: string, l: Key, mid: string, r: Key, rest: string)
    requires "OR " <= s && s[3..] == Spell(l) + mid
    requires " " <= mid && mid[1..] == Spell(r) + rest
    ensures s == Spell(Or(l, r)) + rest
  {
    Regroup("OR ", Spell(l), " ", Spell(r), rest);
    assert s == "OR " + s[3..];
    assert mid == " " + mid[1..];
  }

  lemma AssocAt(a: string, b: string, c: string)
    ensures a + b + c == a + (b + c)
  {}

  lemma {:induction false} EscapedConcat(a: string, b: string)
    ensures Escaped(a + b) == Escaped(a) + Escaped(b)
  {
    if a == "" {
      assert a + b == b;
    } else {
      EscapedConcat(a[1..], b);
      TailConcat(a, b);
      AssocAt(if Special(a[0]) then ['\\', a[0]] else [a[0]], Escaped(a[1..]), Escaped(b));
    }
  }

  function Slashes(n: nat): string { if n == 0 then "" else "\\" + Slashes(n - 1) }

  lemma {:induction false} EscapedSlashes(n: nat)
    ensures Escaped(Slashes(n)) == Slashes(2 * n)
  {
    if n > 0 {
      EscapedSlashes(n - 1);
      assert Slashes(n)[1..] == Slashes(n - 1);
      assert Slashes(2 * n) == "\\" + ("\\" + Slashes(2 * n - 2));
    }
  }

  lemma {:induction false} SlashesAreSlashes(n: nat)
    ensures |Slashes(n)| == n && forall c | c in Slashes(n) :: c == '\\'
  {
    if n > 0 {
      SlashesAreSlashes(n - 1);
    }
  }

  lemma {:induction false} LeafInSpelling(k: Key, w: string)
    requires w in Leaves(k)
    ensures Contains(Spell(k), Escaped(w))
  {
    match k
    case Text(_) =>
      ContainsMiddle("TEXT \"", Escaped(w), "\"");
    case Or(l, r) =>
      if w in Leaves(l) {
        LeafInSpelling(l, w);
        ContainsMiddle("OR ", Spell(l), " " + Spell(r));
        assert Spell(k) == "OR " + Spell(l) + (" " + Spell(r));
        ContainsTransitive(Spell(k), Spell(l), Escaped(w));
      } else {
        LeafInSpelling(r, w);
        ContainsMiddle("OR " + Spell(l) + " ", Spell(r), "");
        assert Spell(k) == "OR " + Spell(l) + " " + Spell(r) + "";
        ContainsTransitive(Spell(k), Spell(r), Escaped(w));
      }
  }

  /** A run of backslashes in the printed text lies within one word. */
  lemma {:induction false} RunInOneWord(words: seq<string>, n: nat)
    requires words != [] && n > 0 && Contains(Print(words), Slashes(n))
    ensures exists w | w in words :: Contains(w, Slashes(n))
    decreases |words|
  {
    var m := |words| - 1;
    if m == 0 {
      RunInText(words[0], n);
    } else {
      SlashesAreSlashes(n);
      var run := Slashes(n);
      ContainsAcross("OR " + Print(words[..m]), ' ', TextKey(words[m]), run);
      if Contains(TextKey(words[m]), run) {
        RunInText(words[m], n);
      } else {
        ContainsAcross("OR", ' ', Print(words[..m]), run);
        assert "OR" + [' '] + Print(words[..m]) == "OR " + Print(words[..m]);
        LetterMissing("OR", run, '\\');
        RunInOneWord(words[..m], n);
        var w :| w in words[..m] && Contains(w, run);
        assert w in words;
      }
    }
  }

  lemma RunInText(w: string, n: nat)
    requires n > 0 && Contains(TextKey(w), Slashes(n))
    ensures Contains(w, Slashes(n))
  {
    SlashesAreSlashes(n);
    var run := Slashes(n);
    ContainsAcross("TEXT \"" + w, '"', "", run);
    assert "TEXT \"" + w + ['"'] + "" == TextKey(w);
    ContainsAcross("TEXT ", '"', w, run);
    assert "TEXT " + ['"'] + w == "TEXT \"" + w;
    LetterMissing("TEXT ", run, '\\');
    LetterMissing("", run, '\\');
  }

  lemma {:induction false} WordsFit(words: seq<string>, w: string)
    requires words != [] && w in words
    ensures |w| <= |Print(words)|
    decreases |words|
  {
    var m := |words| - 1;
    if m > 0 && w != words[m] {
      assert words == words[..m] + [words[m]];
      WordsFit(words[..m], w);
    }
  }

  /** A word with a backslash would have to be spelled with twice as many somewhere in the text,
      so by some word with a longer run, and so on without end. */
  lemma {:induction false} NoBackslash(words: seq<string>, n: nat)
    requires words != [] && n > 0 && SearchesFor(Print(words), words)
    ensures forall w | w in words :: !Contains(w, Slashes(n))
    decreases |Print(words)| + 1 - n
  {
    forall w | w in words && Contains(w, Slashes(n))
      ensures false
    {
      SlashesAreSlashes(n);
      WordsFit(words, w);
      RunDoubles(words, w, n);
      NoBackslash(words, 2 * n);
    }
  }

  lemma EscapingDoubles(w: string, n: nat)
    requires Contains(w, Slashes(n))
    ensures Contains(Escaped(w), Slashes(2 * n))
  {
    var i :| 0 <= i <= |w| && OccursAt(w, Slashes(n), i);
    var a, b := w[..i], w[i + |Slashes(n)|..];
    assert w == a + Slashes(n) + b;
    EscapedConcat(a + Slashes(n), b);
    EscapedConcat(a, Slashes(n));
    EscapedSlashes(n);
    ContainsMiddle(Escaped(a), Slashes(2 * n), Escaped(b));
  }

  lemma RunDoubles(words: seq<string>, w: string, n: nat)
    requires words != [] && n > 0 && SearchesFor(Print(words), words)
    requires w in words && Contains(w, Slashes(n))
    ensures exists v | v in words :: Contains(v, Slashes(2 * n))
  {
    var s := Print(words);
    var k := ParseKey(s).value.0;
    ParsedIsSpelled(s);
    MeaningFixesLeaves(k, words, w);
    LeafInSpelling(k, w);
    assert Spell(k) + "" == Spell(k);
    EscapingDoubles(w, n);
    ContainsTransitive(s, Escaped(w), Slashes(2 * n));
    RunInOneWord(words, 2 * n);
  }

  lemma {:induction false} SpecialIsEscaped(w: string, c: char)
    requires c in w && Special(c)
    ensures Contains(Escaped(w), Slashes(1))
  {
    var i :| 0 <= i < |w| && w[i] == c;
    assert w == w[..i] + w[i..];
    EscapedConcat(w[..i], w[i..]);
    assert Escaped(w) == Escaped(w[..i]) + "\\" + ([c] + Escaped(w[i..][1..]));
    ContainsMiddle(Escaped(w[..i]), "\\", [c] + Escaped(w[i..][1..]));
    assert Slashes(1) == "\\" + Slashes(0) == "\\";
  }

  lemma ReadBackIsPlain(words: seq<string>)
    requires words != [] && SearchesFor(Print(words), words)
    ensures AllPlain(words)
  {
    var s := Print(words);
    var k := ParseKey(s).value.0;
    ParsedIsSpelled(s);
    assert Spell(k) + "" == Spell(k);
    forall w, c | w in words && c in w
      ensures TextChar(c) && !Special(c)
    {
      MeaningFixesLeaves(k, words, w);
      if Special(c) {
        SpecialIsEscaped(w, c);
        LeafInSpelling(k, w);
        ContainsTransitive(s, Escaped(w), Slashes(1));
        RunInOneWord(words, 1);
        NoBackslash(words, 1);
      }
    }
  }

  /** The printed key is read back completely, and selects the messages that contain one of the
      words, exactly when no word holds a quote, a backslash, CR, LF, NUL or an 8-bit character:
      the printer does not escape. */
  lemma ReadsBackIff(words: seq<string>)
    requires words != []
    ensures SearchesFor(Print(words), words) <==> AllPlain(words)
  {
    if AllPlain(words) {
      ParsePrinted(words, "");
      assert Print(words) + "" == Print(words);
      TreeMeansAny(words);
    }
    if SearchesFor(Print(words), words) {
      ReadBackIsPlain(words);
    }
  }
}
