// Wrapping one line of a note: wrapLine of internal/ui/note.go, with the visible width of
// internal/ui/ansi.go.
module WordWrap {

  const ESC: char := '\U{001B}'

  // ------------------------------------------------------------- visible characters

  predicate StartsWith(s: string, prefix: string) {
    prefix <= s
  }

  function RunLength(s: string, ok: char -> bool): (n: nat)
    ensures n <= |s|
  {
    if s == "" || !ok(s[0]) then 0 else 1 + RunLength(s[1..], ok)
  }

  predicate InColour(c: char) {
    '0' <= c <= '9' || c == ';'
  }

  predicate InTarget(c: char) {
    c != ESC
  }

  /** Length of the colour sequence ESC [ digits m at the start of s, or 0. */
  function ColourLength(s: string): (n: nat)
    ensures n <= |s|
  {
    if !StartsWith(s, [ESC, '[']) then 0 else
      var k := 2 + RunLength(s[2..], InColour);
      if k < |s| && s[k] == 'm' then k + 1 else 0
  }

  /** Length of the hyperlink sequence ESC ] 8 ; ; text ESC \ at the start of s, or 0. */
  function LinkLength(s: string): (n: nat)
    ensures n <= |s|
  {
    if !StartsWith(s, [ESC, ']', '8', ';', ';']) then 0 else
      var k := 5 + RunLength(s[5..], InTarget);
      if k + 1 < |s| && s[k + 1] == '\\' then k + 2 else 0
  }

  function StripLinks(s: string): string {
    if s == "" then ""
    else if LinkLength(s) > 0 then StripLinks(s[LinkLength(s)..])
    else [s[0]] + StripLinks(s[1..])
  }

  function StripColours(s: string): string {
    if s == "" then ""
    else if ColourLength(s) > 0 then StripColours(s[ColourLength(s)..])
    else [s[0]] + StripColours(s[1..])
  }

  function VisibleWidth(s: string): nat {
    |StripColours(StripLinks(s))|
  }

  lemma {:induction false} PlainIsVisible(s: string)
    requires ESC !in s
    ensures StripLinks(s) == s && StripColours(s) == s
  {
    if s != "" {
      assert s[0] != ESC;
      assert LinkLength(s) == 0 && ColourLength(s) == 0;
      PlainIsVisible(s[1..]);
      assert s == [s[0]] + s[1..];
    }
  }

  lemma {:induction false} RunThen(run: string, rest: string, ok: char -> bool)
    requires (forall c :: c in run ==> ok(c)) && rest != "" && !ok(rest[0])
    ensures RunLength(run + rest, ok) == |run|
  {
    if run == "" {
      assert run + rest == rest;
    } else {
      assert run[0] in run && (run + rest)[1..] == run[1..] + rest;
      RunThen(run[1..], rest, ok);
    }
  }

  lemma OtherStart(s: string, prefix: string)
    requires s != "" && prefix != "" && s[0] != prefix[0]
    ensures !StartsWith(s, prefix)
  {
  }

  /** Sequences start with the escape character only. */
  lemma StripsOther(s: string)
    requires s != "" && s[0] != ESC
    ensures StripLinks(s) == [s[0]] + StripLinks(s[1..]) && StripColours(s) == [s[0]] + StripColours(s[1..])
  {
    OtherStart(s, [ESC, '[']);
    OtherStart(s, [ESC, ']', '8', ';', ';']);
  }

  lemma Regroup(a: string, b: string, c: string)
    ensures a + (b + c) == (a + b) + c
  {
  }

  lemma {:induction false} PlainThenLinks(plain: string, rest: string)
    requires ESC !in plain
    ensures StripLinks(plain + rest) == plain + StripLinks(rest)
  {
    if plain == "" {
      assert plain + rest == rest;
    } else {
      var c, more := plain[0], plain[1..];
      assert c in plain && (plain + rest)[1..] == more + rest;
      StripsOther(plain + rest);
      PlainThenLinks(more, rest);
      Regroup([c], more, StripLinks(rest));
      assert [c] + more == plain;
    }
  }

  lemma ColourPieces(digits: string, rest: string)
    ensures [ESC, '['] + (digits + ("m" + rest)) == [ESC] + (("[" + digits + "m") + rest)
  {
  }

  lemma LinksPassColour(digits: string, rest: string)
    requires forall c :: c in digits ==> '0' <= c <= '9' || c == ';'
    ensures StripLinks([ESC, '['] + (digits + ("m" + rest))) == [ESC, '['] + (digits + ("m" + StripLinks(rest)))
  {
    var tail := "[" + digits + "m";
    var s := [ESC] + (tail + rest);
    ColourPieces(digits, rest);
    ColourPieces(digits, StripLinks(rest));
    assert s[1..] == tail + rest && s[1] == '[';
    assert LinkLength(s) == 0;
    PlainThenLinks(tail, rest);
  }

  lemma ColourAtStart(digits: string, rest: string)
    requires forall c :: c in digits ==> '0' <= c <= '9' || c == ';'
    ensures var s := [ESC, '['] + (digits + ("m" + rest));
            ColourLength(s) == 3 + |digits| && s[3 + |digits|..] == rest
  {
    var s := [ESC, '['] + (digits + ("m" + rest));
    RunThen(digits, "m" + rest, InColour);
    assert s[2..] == digits + ("m" + rest);
    assert StartsWith(s, [ESC, '[']) && s[2 + |digits|] == 'm';
  }

  /** A colour sequence takes no room: the escape character, a bracket, digits and semicolons, an m. */
  lemma ColourIsInvisible(digits: string, rest: string)
    requires forall c :: c in digits ==> '0' <= c <= '9' || c == ';'
    ensures VisibleWidth([ESC, '['] + (digits + ("m" + rest))) == VisibleWidth(rest)
  {
    LinksPassColour(digits, rest);
    ColourAtStart(digits, StripLinks(rest));
  }

  /** Nor does either end of a hyperlink: the escape character, ]8;;, a target without escapes, and the
      escape character with a backslash. */
  lemma LinkIsInvisible(target: string, rest: string)
    requires ESC !in target
    ensures VisibleWidth([ESC, ']', '8', ';', ';'] + (target + ([ESC, '\\'] + rest))) == VisibleWidth(rest)
  {
    var s := [ESC, ']', '8', ';', ';'] + (target + ([ESC, '\\'] + rest));
    var k := 5 + |target|;
    RunThen(target, [ESC, '\\'] + rest, InTarget);
    assert s[5..] == target + ([ESC, '\\'] + rest);
    assert StartsWith(s, [ESC, ']', '8', ';', ';']) && s[k + 1] == '\\';
    assert LinkLength(s) == k + 2 && s[k + 2..] == rest;
  }

  /** Any other character takes one place. */
  lemma PlainIsOneWide(c: char, rest: string)
    requires c != ESC
    ensures VisibleWidth([c] + rest) == 1 + VisibleWidth(rest)
  {
    StripsOther([c] + rest);
    StripsOther([c] + StripLinks(rest));
    assert ([c] + rest)[1..] == rest && ([c] + StripLinks(rest))[1..] == StripLinks(rest);
  }

  // ------------------------------------------------------------------------ words

  predicate IsSpace(c: char) {
    c in {'\t', '\n', '\U{000B}', '\U{000C}', '\r', ' ', '\U{0085}', '\U{00A0}', '\U{1680}',
          '\U{2028}', '\U{2029}', '\U{202F}', '\U{205F}', '\U{3000}'}
    || '\U{2000}' <= c <= '\U{200A}'
  }

  /** Among the ASCII characters, exactly the space and the five from tab to carriage return. */
  lemma AsciiSpaces(c: char)
    requires c < '\U{0080}'
    ensures IsSpace(c) <==> c == ' ' || '\t' <= c <= '\r'
  {
  }

  predicate Blank(s: string) {
    forall c :: c in s ==> IsSpace(c)
  }

  function WordLength(s: string): (n: nat)
    ensures n <= |s|
  {
    if s == "" || IsSpace(s[0]) then 0 else 1 + WordLength(s[1..])
  }

  function Fields(s: string): seq<string> {
    if s == "" then []
    else if IsSpace(s[0]) then Fields(s[1..])
    else [s[..WordLength(s)]] + Fields(s[WordLength(s)..])
  }

  predicate IsWord(w: string) {
    w != "" && forall c :: c in w ==> !IsSpace(c)
  }

  predicate AreWords(ws: seq<string>) {
    forall w :: w in ws ==> IsWord(w)
  }

  function Join(ws: seq<string>): string {
    if ws == [] then "" else if |ws| == 1 then ws[0] else ws[0] + " " + Join(ws[1..])
  }

  lemma {:induction false} WordPrefix(s: string)
    ensures forall c :: c in s[..WordLength(s)] ==> c in s && !IsSpace(c)
    ensures forall c :: c in s[WordLength(s)..] ==> c in s
  {
    if s != "" && !IsSpace(s[0]) {
      WordPrefix(s[1..]);
      var n := WordLength(s);
      assert s[..n] == [s[0]] + s[1..][..n - 1];
    }
  }

  lemma {:induction false} FieldsAreWords(s: string)
    ensures AreWords(Fields(s))
    ensures forall w, c :: w in Fields(s) && c in w ==> c in s
    ensures Fields(s) == [] <==> Blank(s)
    decreases |s|
  {
    if s != "" {
      if IsSpace(s[0]) {
        FieldsAreWords(s[1..]);
        assert s == [s[0]] + s[1..];
      } else {
        WordPrefix(s);
        FieldsAreWords(s[WordLength(s)..]);
        assert s[0] in s;
      }
    }
  }

  lemma {:induction false} WordLengthThen(w: string, rest: string)
    requires (forall c :: c in w ==> !IsSpace(c)) && (rest == "" || IsSpace(rest[0]))
    ensures WordLength(w + rest) == |w|
  {
    if w == "" {
      assert w + rest == rest;
    } else {
      assert (w + rest)[1..] == w[1..] + rest;
      assert w[0] in w;
      WordLengthThen(w[1..], rest);
    }
  }

  lemma {:induction false} WordLengthStops(s: string, rest: string)
    requires rest != "" && IsSpace(rest[0])
    ensures WordLength(s + rest) == WordLength(s)
  {
    if s == "" {
      assert s + rest == rest;
    } else {
      assert (s + rest)[1..] == s[1..] + rest;
      WordLengthStops(s[1..], rest);
    }
  }

  /** A space anywhere separates the words before it from those after it. */
  lemma {:induction false} SpaceSeparates(a: string, c: char, b: string)
    requires IsSpace(c)
    ensures Fields(a + ([c] + b)) == Fields(a) + Fields(b)
    decreases |a|
  {
    var s := a + ([c] + b);
    if a == "" {
      assert s == [c] + b && s[1..] == b;
    } else if IsSpace(a[0]) {
      assert s[1..] == a[1..] + ([c] + b);
      SpaceSeparates(a[1..], c, b);
    } else {
      var n := WordLength(a);
      WordLengthStops(a, [c] + b);
      assert s[..n] == a[..n] && s[n..] == a[n..] + ([c] + b);
      SpaceSeparates(a[n..], c, b);
    }
  }

  lemma WordIsField(w: string)
    requires IsWord(w)
    ensures Fields(w) == [w]
  {
    WordLengthThen(w, "");
    assert w + "" == w && w[0] in w;
    assert w[..|w|] == w && w[|w|..] == "";
  }

  /** Splitting a line into words and joining them are inverse on words. */
  lemma {:induction false} FieldsOfJoin(ws: seq<string>)
    requires AreWords(ws)
    ensures Fields(Join(ws)) == ws
  {
    if ws != [] {
      var w, more := ws[0], ws[1..];
      assert ws == [w] + more;
      WordIsField(w);
      if more != [] {
        FieldsOfJoin(more);
        SpaceSeparates(w, ' ', Join(more));
        assert Join(ws) == w + ([' '] + Join(more));
      }
    }
  }

  lemma {:induction false} JoinSnoc(ws: seq<string>, w: string)
    requires ws != []
    ensures Join(ws + [w]) == Join(ws) + " " + w
  {
    assert (ws + [w])[1..] == ws[1..] + [w];
    if |ws| > 1 {
      JoinSnoc(ws[1..], w);
    } else {
      assert ws[1..] + [w] == [w];
    }
  }

  // ------------------------------------------------------------------ the algorithm

  function Concat(groups: seq<seq<string>>): seq<string> {
    if groups == [] then [] else Concat(groups[..|groups| - 1]) + groups[|groups| - 1]
  }

  function JoinAll(groups: seq<seq<string>>): (lines: seq<string>) {
    seq(|groups|, i requires 0 <= i < |groups| => Join(groups[i]))
  }

  type Fit = seq<string> -> bool

  function FitsIn(maxWidth: int): Fit {
    ws => VisibleWidth(Join(ws)) <= maxWidth
  }

  /** A line that fits, or has a single word. */
  ghost predicate LineOk(ws: seq<string>, fits: Fit) {
    |ws| == 1 || (ws != [] && fits(ws))
  }

  ghost predicate IsSplit(groups: seq<seq<string>>, ws: seq<string>, fits: Fit) {
    Concat(groups) == ws && forall i :: 0 <= i < |groups| ==> LineOk(groups[i], fits)
  }

  /** The line g could not also have taken the first word of the line h. */
  ghost predicate Tight(g: seq<string>, h: seq<string>, fits: Fit) {
    h != [] && !fits(g + [h[0]])
  }

  ghost predicate NoSlack(groups: seq<seq<string>>, fits: Fit) {
    forall i :: 0 < i < |groups| ==> Tight(groups[i - 1], groups[i], fits)
  }

  lemma CandidateIsJoin(current: string, open: seq<string>, word: string)
    requires current == Join(open) && (current == "" <==> open == []) && IsWord(word)
    ensures (if current != "" then current + " " else current) + word == Join(open + [word])
    ensures Join(open + [word]) != ""
  {
    if open != [] {
      JoinSnoc(open, word);
    }
  }

  /** The words taken so far are on finished lines, except the open ones on the current line. */
  ghost predicate Wrapping(taken: seq<string>, lines: seq<string>, groups: seq<seq<string>>,
                           current: string, open: seq<string>, fits: Fit) {
    && taken == Concat(groups) + open && lines == JoinAll(groups)
    && current == Join(open) && (current == "" <==> open == []) && (open == [] ==> groups == [])
    && IsSplit(groups, Concat(groups), fits) && NoSlack(groups, fits)
    && (open != [] ==> LineOk(open, fits))
    && (open != [] && groups != [] ==> Tight(groups[|groups| - 1], open, fits))
  }

  lemma Grow(taken: seq<string>, lines: seq<string>, groups: seq<seq<string>>, current: string,
             open: seq<string>, word: string, candidate: string, maxWidth: int)
    requires Wrapping(taken, lines, groups, current, open, FitsIn(maxWidth)) && IsWord(word)
    requires candidate == (if current != "" then current + " " else current) + word
    requires VisibleWidth(candidate) <= maxWidth
    ensures Wrapping(taken + [word], lines, groups, candidate, open + [word], FitsIn(maxWidth)) && candidate != ""
  {
    CandidateIsJoin(current, open, word);
    assert open != [] ==> (open + [word])[0] == open[0];
  }

  lemma Close(taken: seq<string>, lines: seq<string>, groups: seq<seq<string>>, current: string,
              open: seq<string>, fits: Fit)
    requires Wrapping(taken, lines, groups, current, open, fits) && open != []
    ensures lines + [current] == JoinAll(groups + [open])
    ensures IsSplit(groups + [open], taken, fits) && NoSlack(groups + [open], fits)
  {
  }

  lemma Break(taken: seq<string>, lines: seq<string>, groups: seq<seq<string>>, current: string,
              open: seq<string>, word: string, candidate: string, maxWidth: int)
    requires Wrapping(taken, lines, groups, current, open, FitsIn(maxWidth)) && IsWord(word)
    requires candidate == (if current != "" then current + " " else current) + word
    requires VisibleWidth(candidate) > maxWidth
    ensures current == "" ==> Wrapping(taken + [word], lines, groups, word, [word], FitsIn(maxWidth))
    ensures current != "" ==>
              Wrapping(taken + [word], lines + [current], groups + [open], word, [word], FitsIn(maxWidth))
  {
    CandidateIsJoin(current, open, word);
    if current != "" {
      Close(taken, lines, groups, current, open, FitsIn(maxWidth));
    }
  }

  lemma TakeOneMore(ws: seq<string>, i: nat)
    requires i < |ws|
    ensures ws[..i + 1] == ws[..i] + [ws[i]]
  {
  }

  method WrapLine(line: string, maxWidth: int) returns (lines: seq<string>, ghost groups: seq<seq<string>>)
    ensures Blank(line) ==> lines == [line]
    ensures !Blank(line) ==>
      lines == JoinAll(groups) && IsSplit(groups, Fields(line), FitsIn(maxWidth)) && NoSlack(groups, FitsIn(maxWidth))
  {
    FieldsAreWords(line);
    var words := Fields(line);
    if |words| == 0 {
      return [line], [];
    }
    lines, groups := [], [];
    var current := "";
    ghost var taken: seq<string>, open: seq<string> := [], [];
    var i := 0;
    while i < |words|
      invariant 0 <= i <= |words| && taken == words[..i] && (i > 0 ==> current != "")
      invariant Wrapping(taken, lines, groups, current, open, FitsIn(maxWidth))
    {
      var word := words[i];
      var candidate := current;
      if current != "" {
        candidate := candidate + " ";
      }
      candidate := candidate + word;
      if VisibleWidth(candidate) <= maxWidth {
        Grow(taken, lines, groups, current, open, word, candidate, maxWidth);
        current := candidate;
        open := open + [word];
      } else {
        Break(taken, lines, groups, current, open, word, candidate, maxWidth);
        if current != "" {
          lines := lines + [current];
          groups := groups + [open];
        }
        current := word;
        open := [word];
      }
      TakeOneMore(words, i);
      taken := taken + [word];
      i := i + 1;
    }
    if current != "" {
      Close(taken, lines, groups, current, open, FitsIn(maxWidth));
      lines := lines + [current];
      groups := groups + [open];
    }
  }

  // -------------------------------------------------------------------- optimality

  /** How many words the first k lines hold. */
  ghost function Taken(groups: seq<seq<string>>, k: nat): (n: nat)
    requires k <= |groups|
  {
    if k == 0 then 0 else Taken(groups, k - 1) + |groups[k - 1]|
  }

  lemma {:induction false} ConcatAppends(a: seq<seq<string>>, b: seq<seq<string>>)
    ensures Concat(a + b) == Concat(a) + Concat(b)
  {
    if b == [] {
      assert a + b == a;
    } else {
      var k := |b| - 1;
      assert (a + b)[..|a| + k] == a + b[..k];
      ConcatAppends(a, b[..k]);
    }
  }

  lemma {:induction false} TakenIsLength(groups: seq<seq<string>>, k: nat)
    requires k <= |groups|
    ensures Taken(groups, k) == |Concat(groups[..k])|
  {
    if k > 0 {
      TakenIsLength(groups, k - 1);
      assert groups[..k][..k - 1] == groups[..k - 1];
    }
  }

  /** Line k holds the words from Taken(k) up to Taken(k + 1). */
  lemma LineAt(groups: seq<seq<string>>, ws: seq<string>, k: nat)
    requires Concat(groups) == ws && k < |groups|
    ensures Taken(groups, k) + |groups[k]| == Taken(groups, k + 1) <= |ws|
    ensures groups[k] == ws[Taken(groups, k)..Taken(groups, k + 1)]
  {
    TakenIsLength(groups, k);
    assert groups[..k + 1][..k] == groups[..k];
    assert groups == groups[..k + 1] + groups[k + 1..];
    ConcatAppends(groups[..k + 1], groups[k + 1..]);
  }

  ghost predicate Plain(ws: seq<string>) {
    forall w :: w in ws ==> ESC !in w
  }

  lemma {:induction false} PlainJoin(ws: seq<string>)
    requires Plain(ws)
    ensures ESC !in Join(ws)
  {
    if |ws| > 1 {
      assert ws[0] in ws;
      PlainJoin(ws[1..]);
    }
  }

  lemma PlainWidth(ws: seq<string>)
    requires Plain(ws)
    ensures VisibleWidth(Join(ws)) == |Join(ws)|
  {
    PlainJoin(ws);
    PlainIsVisible(Join(ws));
  }

  lemma {:induction false} JoinOfPart(ws: seq<string>, i: nat, j: nat)
    requires i <= j <= |ws|
    ensures |Join(ws[i..j])| <= |Join(ws)|
    decreases |ws|
  {
    if j < |ws| {
      var k := |ws| - 1;
      assert ws == ws[..k] + [ws[k]];
      if k > 0 {
        JoinSnoc(ws[..k], ws[k]);
      }
      assert ws[..k][i..j] == ws[i..j];
      JoinOfPart(ws[..k], i, j);
    } else if i > 0 {
      assert ws[1..][i - 1..j - 1] == ws[i..j];
      JoinOfPart(ws[1..], i - 1, j - 1);
    } else {
      assert ws[i..j] == ws;
    }
  }

  lemma SubSlice(ws: seq<string>, a: nat, b: nat, c: nat, d: nat)
    requires a <= b <= c <= d <= |ws|
    ensures ws[a..d][b - a..c - a] == ws[b..c]
  {
    forall k | 0 <= k < c - b
      ensures ws[a..d][b - a..c - a][k] == ws[b..c][k]
    {
      assert ws[a..d][b - a + k] == ws[b + k];
    }
  }

  lemma WidthOfPart(ws: seq<string>, a: nat, b: nat, c: nat, d: nat)
    requires Plain(ws) && a <= b <= c <= d <= |ws|
    ensures VisibleWidth(Join(ws[b..c])) <= VisibleWidth(Join(ws[a..d]))
  {
    SubSlice(ws, a, b, c, d);
    JoinOfPart(ws[a..d], b - a, c - a);
    PlainWidth(ws[a..d]);
    PlainWidth(ws[b..c]);
  }

  lemma NextWord(groups: seq<seq<string>>, ws: seq<string>, k: nat)
    requires Concat(groups) == ws && 0 < k < |groups| && groups[k] != []
    ensures Taken(groups, k - 1) + |groups[k - 1]| == Taken(groups, k) < |ws|
    ensures groups[k - 1] + [groups[k][0]] == ws[Taken(groups, k - 1)..Taken(groups, k) + 1]
  {
    LineAt(groups, ws, k - 1);
    LineAt(groups, ws, k);
    var a, b := Taken(groups, k - 1), Taken(groups, k);
    assert ws[a..b + 1] == ws[a..b] + [ws[b]];
    assert groups[k][0] == ws[b];
  }

  lemma BreakIsForced(groups: seq<seq<string>>, ws: seq<string>, fits: Fit, k: nat)
    requires IsSplit(groups, ws, fits) && NoSlack(groups, fits) && 0 < k < |groups|
    ensures Taken(groups, k - 1) < Taken(groups, k) < |ws|
    ensures !fits(ws[Taken(groups, k - 1)..Taken(groups, k) + 1])
  {
    assert LineOk(groups[k - 1], fits) && Tight(groups[k - 1], groups[k], fits);
    NextWord(groups, ws, k);
  }

  lemma LineFits(groups: seq<seq<string>>, ws: seq<string>, fits: Fit, k: nat)
    requires IsSplit(groups, ws, fits) && k < |groups|
    ensures Taken(groups, k) < Taken(groups, k + 1) <= |ws|
    ensures Taken(groups, k + 1) == Taken(groups, k) + 1 ||
            fits(ws[Taken(groups, k)..Taken(groups, k + 1)])
  {
    assert LineOk(groups[k], fits);
    LineAt(groups, ws, k);
  }

  lemma AllTaken(groups: seq<seq<string>>, ws: seq<string>)
    requires Concat(groups) == ws
    ensures Taken(groups, |groups|) == |ws|
  {
    TakenIsLength(groups, |groups|);
    assert groups[..|groups|] == groups;
  }

  /** Whatever fits still fits when words are taken off either end. */
  ghost predicate Monotone(ws: seq<string>, fits: Fit) {
    forall a, b, c, d :: 0 <= a <= b <= c <= d <= |ws| && fits(ws[a..d]) ==> fits(ws[b..c])
  }

  /** A line starting no later than a greedy one cannot end later. */
  lemma NoLineReachesFurther(ws: seq<string>, fits: Fit, g0: nat, g1: nat, o0: nat, o1: nat)
    requires Monotone(ws, fits) && o0 <= g0 < g1 < |ws| && o0 < o1 <= |ws|
    requires !fits(ws[g0..g1 + 1]) && (o1 == o0 + 1 || fits(ws[o0..o1]))
    ensures o1 <= g1
  {
  }

  lemma GreedyStep(groups: seq<seq<string>>, other: seq<seq<string>>, ws: seq<string>, fits: Fit, k: nat)
    requires Monotone(ws, fits) && IsSplit(groups, ws, fits) && NoSlack(groups, fits) && IsSplit(other, ws, fits)
    requires 0 < k <= |groups| && k <= |other| && Taken(groups, k - 1) >= Taken(other, k - 1)
    ensures Taken(groups, k) >= Taken(other, k)
  {
    LineFits(other, ws, fits, k - 1);
    if k == |groups| {
      AllTaken(groups, ws);
    } else {
      BreakIsForced(groups, ws, fits, k);
      NoLineReachesFurther(ws, fits, Taken(groups, k - 1), Taken(groups, k), Taken(other, k - 1), Taken(other, k));
    }
  }

  /** After any number of lines the greedy split has taken at least as many words as any other. */
  lemma {:induction false} GreedyStaysAhead(groups: seq<seq<string>>, other: seq<seq<string>>, ws: seq<string>,
                                            fits: Fit, k: nat)
    requires Monotone(ws, fits) && IsSplit(groups, ws, fits) && NoSlack(groups, fits) && IsSplit(other, ws, fits)
    requires k <= |groups| && k <= |other|
    ensures Taken(groups, k) >= Taken(other, k)
  {
    if k > 0 {
      GreedyStaysAhead(groups, other, ws, fits, k - 1);
      GreedyStep(groups, other, ws, fits, k);
    }
  }

  lemma FewestLines(groups: seq<seq<string>>, other: seq<seq<string>>, ws: seq<string>, fits: Fit)
    requires Monotone(ws, fits) && IsSplit(groups, ws, fits) && NoSlack(groups, fits) && IsSplit(other, ws, fits)
    ensures |groups| <= |other|
  {
    var k := |other|;
    if k < |groups| {
      LineFits(groups, ws, fits, k);
      AllTaken(other, ws);
      GreedyStaysAhead(groups, other, ws, fits, k);
    }
  }

  lemma WidthIsMonotone(ws: seq<string>, maxWidth: int)
    requires Plain(ws)
    ensures Monotone(ws, FitsIn(maxWidth))
  {
    forall a, b, c, d | 0 <= a <= b <= c <= d <= |ws| && FitsIn(maxWidth)(ws[a..d])
      ensures FitsIn(maxWidth)(ws[b..c])
    {
      WidthOfPart(ws, a, b, c, d);
    }
  }

  /** Each wrapped line, split into words again, gives back the words put on it, so the lines together
      hold the words of the original line, all of them and in order. */
  lemma WordsAreKept(line: string, groups: seq<seq<string>>, i: nat)
    requires Concat(groups) == Fields(line) && i < |groups|
    ensures Fields(JoinAll(groups)[i]) == groups[i]
  {
    FieldsAreWords(line);
    LineAt(groups, Fields(line), i);
    FieldsOfJoin(groups[i]);
  }

  /** For a line without escape sequences, no split of its words into lines that fit or have one word
      uses fewer lines than the one WrapLine makes. */
  lemma GreedyUsesFewestLines(line: string, maxWidth: int, groups: seq<seq<string>>, other: seq<seq<string>>)
    requires ESC !in line
    requires IsSplit(groups, Fields(line), FitsIn(maxWidth)) && NoSlack(groups, FitsIn(maxWidth))
    requires IsSplit(other, Fields(line), FitsIn(maxWidth))
    ensures |groups| <= |other|
  {
    FieldsAreWords(line);
    WidthIsMonotone(Fields(line), maxWidth);
    FewestLines(groups, other, Fields(line), FitsIn(maxWidth));
  }
}
