/**
 `ReplaceStringInPlace`, and the successive replacements that instantiate the monitor template.
 */
module Templates {

  /** Replaces the occurrences of `p` from left to right, without overlap. */
  function ReplaceAll(s: string, p: string, v: string): string
    requires p != []
  {
    if |s| < |p| then s
    else if p <= s then v + ReplaceAll(s[|p|..], p, v)
    else [s[0]] + ReplaceAll(s[1..], p, v)
  }

  /** `find`: the first occurrence of `p` at or after `pos`, or the length of `s` when there is none. */
  method Find(s: string, p: string, pos: nat) returns (i: nat)
    requires p != [] && pos <= |s|
    ensures pos <= i <= |s|
    ensures i < |s| ==> p <= s[i..]
    ensures forall k :: pos <= k < i ==> !(p <= s[k..])
  {
    i := pos;
    while i < |s|
      invariant pos <= i <= |s|
      invariant forall k :: pos <= k < i ==> !(p <= s[k..])
    {
      if p <= s[i..] {
        return;
      }
      i := i + 1;
    }
  }

  lemma {:induction false} SkipOne(c: char, s: string, p: string, v: string)
    requires p != [] && !(p <= [c] + s)
    ensures ReplaceAll([c] + s, p, v) == [c] + ReplaceAll(s, p, v)
  {
    assert ([c] + s)[1..] == s;
    if |[c] + s| < |p| {
      assert ReplaceAll(s, p, v) == s;
    }
  }

  /** Text in which `p` starts nowhere is left alone. */
  lemma {:induction false} Skip(w: string, rest: string, p: string, v: string)
    requires p != [] && forall k :: 0 <= k < |w| ==> !(p <= w[k..] + rest)
    ensures ReplaceAll(w + rest, p, v) == w + ReplaceAll(rest, p, v)
  {
    if w == [] {
      assert w + rest == rest;
    } else {
      var c, u := w[0], w[1..];
      forall k | 0 <= k < |u| ensures !(p <= u[k..] + rest) {
        assert u[k..] == w[k + 1..];
      }
      Skip(u, rest, p, v);
      assert w[0..] == w && w + rest == [c] + (u + rest);
      SkipOne(c, u + rest, p, v);
      assert [c] + (u + ReplaceAll(rest, p, v)) == w + ReplaceAll(rest, p, v);
    }
  }

  lemma {:induction false} ReplaceHead(s: string, p: string, v: string)
    requires p != []
    ensures s == [] ==> ReplaceAll(s, p, v) == []
    ensures p <= s ==> ReplaceAll(s, p, v) == v + ReplaceAll(s[|p|..], p, v)
  {
  }

  /** The text before and after a position, replaced from there on. */
  function Replaced(s: string, pos: nat, p: string, v: string): string
    requires p != [] && pos <= |s|
  {
    s[..pos] + ReplaceAll(s[pos..], p, v)
  }

  lemma Cut(s: string, pos: nat, i: nat)
    requires pos <= i <= |s|
    ensures s[pos..] == s[pos..i] + s[i..] && s[..i] == s[..pos] + s[pos..i]
  {
  }

  lemma Assoc(a: string, b: string, c: string)
    ensures a + (b + c) == (a + b) + c
  {
  }

  /** Moving on to the first occurrence at or after a position changes nothing. */
  lemma {:induction false} ReachOccurrence(s: string, pos: nat, i: nat, p: string, v: string)
    requires p != [] && pos <= i <= |s| && forall k :: pos <= k < i ==> !(p <= s[k..])
    ensures Replaced(s, i, p, v) == Replaced(s, pos, p, v)
  {
    var w, tail := s[pos..i], s[i..];
    forall k | 0 <= k < |w| ensures !(p <= w[k..] + tail) {
      assert w[k..] + tail == s[pos + k..];
    }
    Skip(w, tail, p, v);
    Cut(s, pos, i);
    Assoc(s[..pos], w, ReplaceAll(tail, p, v));
  }

  /** Rewriting the occurrence at `i` and continuing behind it changes nothing. */
  lemma {:induction false} RewriteOccurrence(s: string, i: nat, p: string, v: string)
    requires p != [] && i < |s| && p <= s[i..]
    ensures i + |p| <= |s| && Replaced(s[..i] + v + s[i + |p|..], i + |v|, p, v) == Replaced(s, i, p, v)
  {
    var tail := s[i + |p|..];
    ReplaceHead(s[i..], p, v);
    assert s[i..][|p|..] == tail;
    var t := s[..i] + v + tail;
    assert t[..i + |v|] == s[..i] + v && t[i + |v|..] == tail;
    assert s[..i] + (v + ReplaceAll(tail, p, v)) == (s[..i] + v) + ReplaceAll(tail, p, v);
  }

  /** `ReplaceStringInPlace`: rewrites the subject where it is found, continuing after each replacement. */
  method ReplaceStringInPlace(original: string, search: string, replace: string) returns (subject: string)
    requires search != []
    ensures subject == ReplaceAll(original, search, replace)
  {
    subject := original;
    var pos: nat := 0;
    assert original[..0] == [] && original[0..] == original;
    while true
      invariant pos <= |subject| && Replaced(subject, pos, search, replace) == ReplaceAll(original, search, replace)
      decreases |subject| - pos
    {
      var i := Find(subject, search, pos);
      ReachOccurrence(subject, pos, i, search, replace);
      if i == |subject| {
        ReplaceHead(subject[i..], search, replace);
        assert subject[..i] == subject && subject + [] == subject;
        return;
      }
      RewriteOccurrence(subject, i, search, replace);
      subject := subject[..i] + replace + subject[i + |search|..];
      pos := i + |replace|;
    }
  }

  // ----- where a replacement applies -----

  ghost predicate Occurs(p: string, s: string) {
    exists i :: 0 <= i <= |s| && p <= s[i..]
  }

  /** Without an occurrence nothing is replaced. */
  lemma NothingReplaced(s: string, p: string, v: string)
    requires p != [] && !Occurs(p, s)
    ensures ReplaceAll(s, p, v) == s
  {
    forall k | 0 <= k < |s| ensures !(p <= s[k..] + []) {
      assert s[k..] + [] == s[k..];
    }
    Skip(s, [], p, v);
    assert s + [] == s;
  }

  lemma PrefixHas(p: string, s: string, i: nat, c: char)
    requires i <= |s| && p <= s[i..] && c in p
    ensures c in s
  {
    var j :| 0 <= j < |p| && p[j] == c;
    assert s[i..][j] == s[i + j];
  }

  /** `p` has a character that `s` lacks. */
  ghost predicate Lacks(s: string, p: string) {
    exists c :: c in p && c !in s
  }

  lemma Foreign(s: string, p: string, v: string)
    requires Lacks(s, p)
    ensures p != [] && ReplaceAll(s, p, v) == s
  {
    var c :| c in p && c !in s;
    forall i | 0 <= i <= |s| ensures !(p <= s[i..]) {
      if p <= s[i..] {
        PrefixHas(p, s, i, c);
      }
    }
    NothingReplaced(s, p, v);
  }

  /** Replacing a text by itself changes nothing. */
  lemma {:induction false} ReplaceSame(s: string, p: string)
    requires p != []
    ensures ReplaceAll(s, p, p) == s
  {
    if |s| >= |p| {
      if p <= s {
        ReplaceSame(s[|p|..], p);
      } else {
        ReplaceSame(s[1..], p);
      }
    }
  }

  lemma OccursTail(s: string, p: string)
    requires p != [] && |s| >= |p| && !(p <= s) && Occurs(p, s)
    ensures Occurs(p, s[1..])
  {
    var i :| 0 <= i <= |s| && p <= s[i..];
    assert s[0..] == s;
    assert s[1..][i - 1..] == s[i..];
  }

  /** Replacing changes the length in the direction in which `v` and `p` differ. */
  lemma {:induction false} ReplaceLength(s: string, p: string, v: string)
    requires p != []
    ensures |v| >= |p| ==> |ReplaceAll(s, p, v)| >= |s|
    ensures |v| <= |p| ==> |ReplaceAll(s, p, v)| <= |s|
    ensures Occurs(p, s) && |v| != |p| ==> |ReplaceAll(s, p, v)| != |s|
  {
    if |s| >= |p| {
      if p <= s {
        ReplaceLength(s[|p|..], p, v);
      } else {
        ReplaceLength(s[1..], p, v);
        if Occurs(p, s) {
          OccursTail(s, p);
        }
      }
    }
  }

  /** A replacement that replaces something and changes nothing replaces a text by itself. */
  lemma {:induction false} UnchangedMeansSame(s: string, p: string, v: string)
    requires p != [] && Occurs(p, s) && ReplaceAll(s, p, v) == s
    ensures v == p
  {
    ReplaceLength(s, p, v);
    if p <= s {
      assert v == s[..|v|] && p == s[..|p|];
    } else {
      assert s[1..] == ReplaceAll(s, p, v)[1..] == ReplaceAll(s[1..], p, v);
      OccursTail(s, p);
      UnchangedMeansSame(s[1..], p, v);
    }
  }

  // ----- words and numerals -----

  predicate IsUpper(c: char) { 'A' <= c <= 'Z' }

  predicate IsDigit(c: char) { '0' <= c <= '9' }

  predicate Alphanumeric(c: char) { IsUpper(c) || IsDigit(c) || 'a' <= c <= 'z' }

  /** A name as the lexer accepts it. */
  predicate Word(s: string) {
    forall i :: 0 <= i < |s| ==> Alphanumeric(s[i])
  }

  predicate Capitals(s: string) {
    s != [] && forall i :: 0 <= i < |s| ==> IsUpper(s[i])
  }

  predicate Numeral(s: string) {
    s != [] && forall i :: 0 <= i < |s| ==> IsDigit(s[i])
  }

  lemma {:induction false} ReplaceInWord(s: string, p: string, v: string)
    requires p != [] && Word(s) && Word(v)
    ensures Word(ReplaceAll(s, p, v))
  {
    if |s| >= |p| {
      if p <= s {
        ReplaceInWord(s[|p|..], p, v);
      } else {
        ReplaceInWord(s[1..], p, v);
      }
    }
  }

  function Digits(s: string): nat {
    if s == [] then 0 else (if IsDigit(s[0]) then 1 else 0) + Digits(s[1..])
  }

  lemma {:induction false} DigitsAppend(s: string, t: string)
    ensures Digits(s + t) == Digits(s) + Digits(t)
  {
    if s == [] {
      assert s + t == t;
    } else {
      assert (s + t)[1..] == s[1..] + t;
      DigitsAppend(s[1..], t);
    }
  }

  lemma {:induction false} NoDigits(s: string)
    requires forall i :: 0 <= i < |s| ==> !IsDigit(s[i])
    ensures Digits(s) == 0
  {
    if s != [] {
      NoDigits(s[1..]);
    }
  }

  /** Replacing capitals loses no digit, and gains some when a numeral comes in. */
  lemma {:induction false} DigitsGrow(s: string, p: string, v: string)
    requires Capitals(p)
    ensures Digits(ReplaceAll(s, p, v)) >= Digits(s)
    ensures Occurs(p, s) && Numeral(v) ==> Digits(ReplaceAll(s, p, v)) > Digits(s)
  {
    if |s| >= |p| {
      if p <= s {
        assert s == p + s[|p|..];
        NoDigits(p);
        DigitsAppend(p, s[|p|..]);
        DigitsAppend(v, ReplaceAll(s[|p|..], p, v));
        DigitsGrow(s[|p|..], p, v);
      } else {
        DigitsGrow(s[1..], p, v);
        assert ([s[0]] + ReplaceAll(s[1..], p, v))[1..] == ReplaceAll(s[1..], p, v);
        if Occurs(p, s) {
          OccursTail(s, p);
        }
      }
    }
  }

  // ----- templates -----

  /** A template: characters, and places for words. */
  datatype Piece = Text(c: char) | Hole(k: nat)

  function Shown(p: Piece, ws: seq<string>): string {
    match p
    case Text(c) => [c]
    case Hole(k) => if k < |ws| then ws[k] else []
  }

  /** The template with the words `ws` in its places. */
  function Show(t: seq<Piece>, ws: seq<string>): string {
    if t == [] then [] else Shown(t[0], ws) + Show(t[1..], ws)
  }

  /** The six placeholders of the monitor template, and the one capital word that stays. */
  function Name(j: nat): string {
    match j
    case 0 => "MONNAME"
    case 1 => "HNAME"
    case 2 => "TIMEOUTVAL"
    case 3 => "RECNUM"
    case 4 => "IDNUM"
    case 5 => "EXTRA_CHECK"
    case _ => "TIMEOUT"
  }

  const WORDS: seq<string> := seq(7, (j: nat) => Name(j))

  /**
   What the text of the monitor template looks like: capital letters occur only in the seven words, a word is
   followed by no letter or digit, and two words with one underscore between them end in TIMEOUT.
   */
  predicate Worded(t: seq<Piece>) {
    && (forall i :: 0 <= i < |t| && t[i].Hole? ==> t[i].k < 7)
    && (forall i :: 0 <= i < |t| && t[i].Text? ==> !IsUpper(t[i].c))
    && (forall i :: 0 <= i < |t| - 1 && t[i].Hole? ==> t[i + 1].Text? && !Alphanumeric(t[i + 1].c))
    && (forall i :: 0 <= i < |t| - 2 && t[i].Hole? && t[i + 1] == Text('_') && t[i + 2].Hole? ==> t[i + 2].k == 6)
  }

  lemma {:induction false} WordedTail(t: seq<Piece>)
    requires t != [] && Worded(t)
    ensures Worded(t[1..])
  {
    var u := t[1..];
    assert forall i :: 0 <= i < |u| ==> u[i] == t[i + 1];
    forall i | 0 <= i < |u| - 2 && u[i].Hole? && u[i + 1] == Text('_') && u[i + 2].Hole? ensures u[i + 2].k == 6 {
      assert u[i + 2] == t[i + 1 + 2] && u[i + 1] == t[i + 1 + 1] && u[i] == t[i + 1];
    }
  }

  /** After a word comes a character that is no letter or digit, or nothing. */
  lemma AfterHole(t: seq<Piece>, ws: seq<string>)
    requires t != [] && Worded(t) && t[0].Hole?
    ensures |t| > 1 ==> t[1].Text? && !Alphanumeric(t[1].c) && Show(t[1..], ws) == [t[1].c] + Show(t[2..], ws)
    ensures |t| == 1 ==> Show(t[1..], ws) == []
  {
    if |t| > 1 {
      assert t[1] == t[0 + 1];
      assert t[1..][1..] == t[2..];
    }
  }

  lemma CapitalAfter(w: string, rest: string, p: string)
    requires Capitals(p) && p <= w + rest && |p| > |w|
    ensures rest != [] && IsUpper(rest[0])
  {
    assert p[|w|] == (w + rest)[|w|];
  }

  /** Capitals do not reach across the end of a word. */
  lemma PrefixInside(w: string, rest: string, p: string)
    requires Capitals(p) && (rest == [] || !IsUpper(rest[0]))
    ensures p <= w + rest <==> p <= w
  {
    if p <= w + rest && |p| > |w| {
      CapitalAfter(w, rest, p);
    }
  }

  lemma {:induction false} ReplaceSplit(w: string, rest: string, p: string, v: string)
    requires Capitals(p) && (rest == [] || !IsUpper(rest[0]))
    ensures ReplaceAll(w + rest, p, v) == ReplaceAll(w, p, v) + ReplaceAll(rest, p, v)
  {
    PrefixInside(w, rest, p);
    if w == [] {
      assert w + rest == rest;
    } else if p <= w {
      var u := w[|p|..];
      assert (w + rest)[|p|..] == u + rest;
      ReplaceSplit(u, rest, p, v);
      ReplaceHead(w, p, v);
      ReplaceHead(w + rest, p, v);
      Assoc(v, ReplaceAll(u, p, v), ReplaceAll(rest, p, v));
    } else {
      var u := w[1..];
      assert (w + rest)[1..] == u + rest;
      ReplaceSplit(u, rest, p, v);
      ReplaceStep(w, p, v);
      ReplaceStep(w + rest, p, v);
      Assoc([w[0]], ReplaceAll(u, p, v), ReplaceAll(rest, p, v));
    }
  }

  lemma ReplaceStep(s: string, p: string, v: string)
    requires p != [] && s != [] && !(p <= s)
    ensures ReplaceAll(s, p, v) == [s[0]] + ReplaceAll(s[1..], p, v)
  {
  }

  function Each(ws: seq<string>, p: string, v: string): (r: seq<string>)
    requires p != []
    ensures |r| == |ws|
  {
    seq(|ws|, i requires 0 <= i < |ws| => ReplaceAll(ws[i], p, v))
  }

  /** Replacing capitals in a template is replacing them in its words. */
  lemma {:induction false} ReplaceWords(t: seq<Piece>, ws: seq<string>, p: string, v: string)
    requires Worded(t) && |ws| == 7 && Capitals(p)
    ensures ReplaceAll(Show(t, ws), p, v) == Show(t, Each(ws, p, v))
  {
    if t != [] {
      WordedTail(t);
      ReplaceWords(t[1..], ws, p, v);
      var rest := Show(t[1..], ws);
      if t[0].Hole? {
        AfterHole(t, ws);
        ReplaceSplit(ws[t[0].k], rest, p, v);
      } else {
        assert ([t[0].c] + rest)[0] == t[0].c && ([t[0].c] + rest)[1..] == rest;
        ReplaceStep([t[0].c] + rest, p, v);
      }
    }
  }

  // ----- the placeholder with an underscore -----

  /** Words without underscores, the last placeholder, and TIMEOUT. */
  predicate BeforeExtra(ws: seq<string>) {
    && |ws| == 7 && ws[5] == "EXTRA_CHECK" && ws[6] == "TIMEOUT"
    && forall j :: 0 <= j < 7 && j != 5 ==> '_' !in ws[j]
  }

  lemma LongWord(w: string, rest: string)
    requires "EXTRA_CHECK" <= w + rest && |w| > 5
    ensures '_' in w
  {
    assert (w + rest)[5] == w[5] && "EXTRA_CHECK"[5] == '_';
  }

  lemma ShortWord(w: string, rest: string)
    requires "EXTRA_CHECK" <= w + rest && |w| < 5
    ensures rest != [] && IsUpper(rest[0])
  {
    assert (w + rest)[|w|] == rest[0] == "EXTRA_CHECK"[|w|];
    assert forall i :: 0 <= i < 5 ==> IsUpper("EXTRA_CHECK"[i]);
  }

  /** EXTRA_CHECK can only start in a word that ends right before its underscore. */
  lemma ExtraAcross(w: string, rest: string)
    requires "EXTRA_CHECK" <= w + rest && '_' !in w && (rest == [] || !Alphanumeric(rest[0]))
    ensures |rest| > 1 && rest[0] == '_' && rest[1] == 'C'
  {
    if |w| > 5 {
      LongWord(w, rest);
    } else if |w| < 5 {
      ShortWord(w, rest);
    } else {
      assert rest[0] == (w + rest)[5] == "EXTRA_CHECK"[5] && rest[1] == (w + rest)[6] == "EXTRA_CHECK"[6];
    }
  }

  /** EXTRA_CHECK starts inside no other word. */
  lemma ExtraElsewhere(t: seq<Piece>, ws: seq<string>, o: nat)
    requires t != [] && Worded(t) && BeforeExtra(ws) && t[0].Hole? && t[0].k != 5 && o < |ws[t[0].k]|
    ensures !("EXTRA_CHECK" <= ws[t[0].k][o..] + Show(t[1..], ws))
  {
    var w, rest := ws[t[0].k][o..], Show(t[1..], ws);
    AfterHole(t, ws);
    UnderscoreThen(t, ws);
    assert '_' !in w;
    if "EXTRA_CHECK" <= w + rest {
      ExtraAcross(w, rest);
    }
  }

  /** After a word and an underscore comes no C. */
  lemma UnderscoreThen(t: seq<Piece>, ws: seq<string>)
    requires t != [] && Worded(t) && BeforeExtra(ws) && t[0].Hole?
    ensures var rest := Show(t[1..], ws); |rest| > 1 && rest[0] == '_' ==> rest[1] != 'C'
  {
    AfterHole(t, ws);
    if |t| > 2 && t[1] == Text('_') {
      assert t[0 + 1] == Text('_') && t[0 + 2] == t[2];
      assert Show(t[2..], ws) == Shown(t[2], ws) + Show(t[2..][1..], ws);
    }
  }

  lemma {:induction false} ReplaceExtra(t: seq<Piece>, ws: seq<string>, v: string)
    requires Worded(t) && BeforeExtra(ws)
    ensures ReplaceAll(Show(t, ws), "EXTRA_CHECK", v) == Show(t, ws[5 := v])
  {
    if t != [] {
      var p, rest := "EXTRA_CHECK", Show(t[1..], ws);
      WordedTail(t);
      ReplaceExtra(t[1..], ws, v);
      if t[0] == Hole(5) {
        assert (p + rest)[|p|..] == rest;
        ReplaceHead(p + rest, p, v);
      } else if t[0].Hole? {
        forall o | 0 <= o < |ws[t[0].k]| ensures !(p <= ws[t[0].k][o..] + rest) {
          ExtraElsewhere(t, ws, o);
        }
        Skip(ws[t[0].k], rest, p, v);
      } else {
        assert ([t[0].c] + rest)[0] == t[0].c && ([t[0].c] + rest)[1..] == rest;
        ReplaceStep([t[0].c] + rest, p, v);
      }
    }
  }

  // ----- the six replacements -----

  /** The values for one monitor check: names as the lexer accepts them, numerals, and any text for the extra keys. */
  datatype Values = Values(mon: string, header: string, timeout: string, rec: string, id: string, extra: string)

  predicate Proper(v: Values) {
    Word(v.mon) && Word(v.header) && Numeral(v.timeout) && Numeral(v.rec) && Numeral(v.id)
  }

  /** What the last three replacements of names make of a text. */
  function NumbersIn(s: string, v: Values): string {
    ReplaceAll(ReplaceAll(ReplaceAll(s, "TIMEOUTVAL", v.timeout), "RECNUM", v.rec), "IDNUM", v.id)
  }

  function Instantiated(s: string, v: Values): string {
    ReplaceAll(NumbersIn(ReplaceAll(ReplaceAll(s, "MONNAME", v.mon), "HNAME", v.header), v), "EXTRA_CHECK", v.extra)
  }

  method InstantiateMonitor(template: string, v: Values) returns (s: string)
    ensures s == Instantiated(template, v)
  {
    s := ReplaceStringInPlace(template, "MONNAME", v.mon);
    s := ReplaceStringInPlace(s, "HNAME", v.header);
    s := ReplaceStringInPlace(s, "TIMEOUTVAL", v.timeout);
    s := ReplaceStringInPlace(s, "RECNUM", v.rec);
    s := ReplaceStringInPlace(s, "IDNUM", v.id);
    s := ReplaceStringInPlace(s, "EXTRA_CHECK", v.extra);
  }

  /** The names as they end up in the text: later placeholders inside them are replaced as well. */
  function MonText(v: Values): string {
    NumbersIn(ReplaceAll(v.mon, "HNAME", v.header), v)
  }

  function HeaderText(v: Values): string {
    NumbersIn(v.header, v)
  }

  lemma NumeralLacks(n: string, p: string)
    requires Numeral(n) && Capitals(p)
    ensures Lacks(n, p)
  {
    assert p[0] in p && p[0] !in n;
  }

  lemma LacksBy(s: string, p: string, c: char)
    requires c in p && c !in s
    ensures Lacks(s, p)
  {
  }

  /** The placeholders do not contain one another. */
  lemma MonLacks(j: nat)
    requires 1 <= j < 7
    ensures Lacks(Name(j), "MONNAME")
  {
    match j
    case 1 => LacksBy("HNAME", "MONNAME", 'O');
    case 2 => LacksBy("TIMEOUTVAL", "MONNAME", 'N');
    case 3 => LacksBy("RECNUM", "MONNAME", 'A');
    case 4 => LacksBy("IDNUM", "MONNAME", 'A');
    case 5 => LacksBy("EXTRA_CHECK", "MONNAME", 'N');
    case _ => LacksBy("TIMEOUT", "MONNAME", 'N');
  }

  lemma HeaderLacks(j: nat)
    requires 2 <= j < 7
    ensures Lacks(Name(j), "HNAME")
  {
    match j
    case 2 => LacksBy("TIMEOUTVAL", "HNAME", 'N');
    case 3 => LacksBy("RECNUM", "HNAME", 'A');
    case 4 => LacksBy("IDNUM", "HNAME", 'A');
    case 5 => LacksBy("EXTRA_CHECK", "HNAME", 'N');
    case _ => LacksBy("TIMEOUT", "HNAME", 'N');
  }

  lemma TimeoutLacks(j: nat)
    requires 3 <= j < 7
    ensures Lacks(Name(j), "TIMEOUTVAL")
  {
    match j
    case 3 => LacksBy("RECNUM", "TIMEOUTVAL", 'V');
    case 4 => LacksBy("IDNUM", "TIMEOUTVAL", 'V');
    case 5 => LacksBy("EXTRA_CHECK", "TIMEOUTVAL", 'V');
    case _ => LacksBy("TIMEOUT", "TIMEOUTVAL", 'V');
  }

  lemma {:induction false} RecLacks(j: nat)
    requires 4 <= j < 7
    ensures Lacks(Name(j), "RECNUM")
  {
    match j
    case 4 => LacksBy("IDNUM", "RECNUM", 'R');
    case 5 => LacksBy("EXTRA_CHECK", "RECNUM", 'N');
    case _ => LacksBy("TIMEOUT", "RECNUM", 'R');
  }

  lemma IdLacks(j: nat)
    requires 5 <= j < 7
    ensures Lacks(Name(j), "IDNUM")
  {
    match j
    case 5 => LacksBy("EXTRA_CHECK", "IDNUM", 'D');
    case _ => LacksBy("TIMEOUT", "IDNUM", 'D');
  }

  /** The words a replacement does not touch. */
  ghost predicate Others(ws: seq<string>, k: nat, p: string) {
    |ws| == 7 && forall j :: 2 <= j < 7 && j != k ==> Lacks(ws[j], p)
  }

  /** One replacement: the placeholder itself, the names before it, and nothing else. */
  lemma WordsStep(ws: seq<string>, k: nat, v: string)
    requires |ws| == 7 && k < 7 && Others(ws, k, ws[k]) && ws[k] != []
    ensures var r := Each(ws, ws[k], v);
            && r[k] == v && (forall j :: 2 <= j < 7 && j != k ==> r[j] == ws[j])
  {
    ReplaceHead(ws[k], ws[k], v);
    ReplaceHead(ws[k][|ws[k]|..], ws[k], v);
    forall j | 2 <= j < 7 && j != k ensures ReplaceAll(ws[j], ws[k], v) == ws[j] {
      Foreign(ws[j], ws[k], v);
    }
  }

  /** The words when the first `k` placeholders have been replaced. */
  predicate WordsAt(ws: seq<string>, k: nat, v: Values) {
    && |ws| == 7 && 2 <= k <= 5
    && (forall j :: k <= j < 7 ==> ws[j] == Name(j))
    && (k > 2 ==> ws[2] == v.timeout) && (k > 3 ==> ws[3] == v.rec) && (k > 4 ==> ws[4] == v.id)
  }

  lemma MonStep(mon: string)
    ensures var a := Each(WORDS, "MONNAME", mon);
            a[0] == mon && a[1] == "HNAME" && forall j :: 2 <= j < 7 ==> a[j] == Name(j)
  {
    forall j | 1 <= j < 7 ensures Lacks(WORDS[j], "MONNAME") {
      MonLacks(j);
    }
    WordsStep(WORDS, 0, mon);
    Foreign(WORDS[1], "MONNAME", mon);
  }

  lemma HeaderStep(a: seq<string>, v: Values)
    requires |a| == 7 && a[1] == "HNAME" && forall j :: 2 <= j < 7 ==> a[j] == Name(j)
    ensures WordsAt(Each(a, "HNAME", v.header), 2, v) && Each(a, "HNAME", v.header)[1] == v.header
  {
    forall j | 2 <= j < 7 ensures Lacks(a[j], "HNAME") {
      HeaderLacks(j);
    }
    WordsStep(a, 1, v.header);
  }

  lemma NamesStep(v: Values)
    ensures var r := Each(Each(WORDS, "MONNAME", v.mon), "HNAME", v.header);
            WordsAt(r, 2, v) && r[0] == ReplaceAll(v.mon, "HNAME", v.header) && r[1] == v.header
  {
    MonStep(v.mon);
    HeaderStep(Each(WORDS, "MONNAME", v.mon), v);
  }

  lemma TimeoutStep(ws: seq<string>, v: Values)
    requires WordsAt(ws, 2, v)
    ensures WordsAt(Each(ws, "TIMEOUTVAL", v.timeout), 3, v)
  {
    forall j | 3 <= j < 7 ensures Lacks(ws[j], "TIMEOUTVAL") {
      TimeoutLacks(j);
    }
    WordsStep(ws, 2, v.timeout);
  }

  lemma RecStep(ws: seq<string>, v: Values)
    requires WordsAt(ws, 3, v) && Proper(v)
    ensures WordsAt(Each(ws, "RECNUM", v.rec), 4, v)
  {
    forall j | 4 <= j < 7 ensures Lacks(ws[j], "RECNUM") {
      RecLacks(j);
    }
    NumeralLacks(v.timeout, "RECNUM");
    WordsStep(ws, 3, v.rec);
  }

  lemma {:induction false} IdStep(ws: seq<string>, v: Values)
    requires WordsAt(ws, 4, v) && Proper(v)
    ensures WordsAt(Each(ws, "IDNUM", v.id), 5, v)
  {
    forall j | 5 <= j < 7 ensures Lacks(ws[j], "IDNUM") {
      IdLacks(j);
    }
    NumeralLacks(v.timeout, "IDNUM");
    NumeralLacks(v.rec, "IDNUM");
    WordsStep(ws, 4, v.id);
  }

  /** The three replacements of numbers act on the words. */
  lemma {:induction false} NumbersStep(t: seq<Piece>, ws: seq<string>, v: Values) returns (r: seq<string>)
    requires Worded(t) && Proper(v) && WordsAt(ws, 2, v)
    ensures WordsAt(r, 5, v) && r[0] == NumbersIn(ws[0], v) && r[1] == NumbersIn(ws[1], v)
    ensures NumbersIn(Show(t, ws), v) == Show(t, r)
  {
    var a := Each(ws, "TIMEOUTVAL", v.timeout);
    ReplaceWords(t, ws, "TIMEOUTVAL", v.timeout);
    TimeoutStep(ws, v);
    var b := Each(a, "RECNUM", v.rec);
    ReplaceWords(t, a, "RECNUM", v.rec);
    RecStep(a, v);
    r := Each(b, "IDNUM", v.id);
    ReplaceWords(t, b, "IDNUM", v.id);
    IdStep(b, v);
  }

  lemma NumbersWord(s: string, v: Values)
    requires Word(s) && Proper(v)
    ensures Word(NumbersIn(s, v))
  {
    ReplaceInWord(s, "TIMEOUTVAL", v.timeout);
    ReplaceInWord(ReplaceAll(s, "TIMEOUTVAL", v.timeout), "RECNUM", v.rec);
    ReplaceInWord(ReplaceAll(ReplaceAll(s, "TIMEOUTVAL", v.timeout), "RECNUM", v.rec), "IDNUM", v.id);
  }

  lemma NoUnderscore(s: string)
    requires Word(s)
    ensures '_' !in s
  {
  }

  lemma FilledBeforeExtra(ws: seq<string>, v: Values)
    requires WordsAt(ws, 5, v) && Word(ws[0]) && Word(ws[1]) && Proper(v)
    ensures BeforeExtra(ws)
  {
    NoUnderscore(ws[0]);
    NoUnderscore(ws[1]);
    NoUnderscore(v.timeout);
    NoUnderscore(v.rec);
    NoUnderscore(v.id);
  }

  /** The template with the values in their places. */
  function Filled(mon: string, header: string, v: Values): seq<string> {
    [mon, header, v.timeout, v.rec, v.id, v.extra, "TIMEOUT"]
  }

  /** The replacements of both names act on the words. */
  lemma NamesText(t: seq<Piece>, v: Values) returns (ws: seq<string>)
    requires Worded(t)
    ensures WordsAt(ws, 2, v) && ws[0] == ReplaceAll(v.mon, "HNAME", v.header) && ws[1] == v.header
    ensures ReplaceAll(ReplaceAll(Show(t, WORDS), "MONNAME", v.mon), "HNAME", v.header) == Show(t, ws)
  {
    var a := Each(WORDS, "MONNAME", v.mon);
    ReplaceWords(t, WORDS, "MONNAME", v.mon);
    ReplaceWords(t, a, "HNAME", v.header);
    NamesStep(v);
    ws := Each(a, "HNAME", v.header);
  }

  lemma ExtraText(t: seq<Piece>, ws: seq<string>, v: Values)
    requires Worded(t) && Proper(v) && WordsAt(ws, 5, v) && Word(ws[0]) && Word(ws[1])
    ensures ReplaceAll(Show(t, ws), "EXTRA_CHECK", v.extra) == Show(t, Filled(ws[0], ws[1], v))
  {
    FilledBeforeExtra(ws, v);
    ReplaceExtra(t, ws, v.extra);
    assert ws[5 := v.extra] == Filled(ws[0], ws[1], v);
  }

  /** The six replacements put the values into their places, the two names as later replacements leave them. */
  lemma MonitorTemplateText(t: seq<Piece>, v: Values)
    requires Worded(t) && Proper(v)
    ensures Instantiated(Show(t, WORDS), v) == Show(t, Filled(MonText(v), HeaderText(v), v))
  {
    var names := NamesText(t, v);
    var ws := NumbersStep(t, names, v);
    MonTextWord(v);
    ExtraText(t, ws, v);
  }

  // ----- when the names survive -----

  /** No placeholder of a number occurs in the text. */
  ghost predicate NumberFree(s: string) {
    !Occurs("TIMEOUTVAL", s) && !Occurs("RECNUM", s) && !Occurs("IDNUM", s)
  }

  lemma NumbersKept(s: string, v: Values)
    requires Proper(v)
    ensures Digits(NumbersIn(s, v)) >= Digits(s)
    ensures Digits(NumbersIn(s, v)) == Digits(s) <==> NumberFree(s)
    ensures NumberFree(s) ==> NumbersIn(s, v) == s
  {
    var a := ReplaceAll(s, "TIMEOUTVAL", v.timeout);
    var b := ReplaceAll(a, "RECNUM", v.rec);
    DigitsGrow(s, "TIMEOUTVAL", v.timeout);
    DigitsGrow(a, "RECNUM", v.rec);
    DigitsGrow(b, "IDNUM", v.id);
    if !Occurs("TIMEOUTVAL", s) {
      NothingReplaced(s, "TIMEOUTVAL", v.timeout);
      if !Occurs("RECNUM", s) {
        NothingReplaced(s, "RECNUM", v.rec);
        if !Occurs("IDNUM", s) {
          NothingReplaced(s, "IDNUM", v.id);
        }
      }
    }
  }

  /** The monitor's name survives: it contains no later placeholder, except the header's own name. */
  ghost predicate MonKept(v: Values) {
    NumberFree(v.mon) && (Occurs("HNAME", v.mon) ==> v.header == "HNAME")
  }

  lemma {:induction false} MonKeptExact(v: Values)
    requires Proper(v)
    ensures MonText(v) == v.mon <==> MonKept(v)
  {
    var m := ReplaceAll(v.mon, "HNAME", v.header);
    NumbersKept(m, v);
    NumbersKept(v.mon, v);
    DigitsGrow(v.mon, "HNAME", v.header);
    if MonText(v) == v.mon {
      assert m == v.mon;
      if Occurs("HNAME", v.mon) {
        UnchangedMeansSame(v.mon, "HNAME", v.header);
      }
    } else if Occurs("HNAME", v.mon) {
      if v.header == "HNAME" {
        ReplaceSame(v.mon, "HNAME");
      }
    } else {
      NothingReplaced(v.mon, "HNAME", v.header);
    }
  }

  lemma HeaderKeptExact(v: Values)
    requires Proper(v)
    ensures HeaderText(v) == v.header <==> NumberFree(v.header)
  {
    NumbersKept(v.header, v);
  }

  /** Words can be read back from the text they are shown in. */
  lemma {:induction false} ShowReads(t: seq<Piece>, ws: seq<string>, us: seq<string>, k: nat)
    requires Worded(t) && |ws| == |us| == 7 && Hole(k) in t && Show(t, ws) == Show(t, us)
    requires forall j :: 0 <= j < 7 ==> ws[j] == us[j] || (Word(ws[j]) && Word(us[j]))
    ensures k < 7 && ws[k] == us[k]
  {
    WordedTail(t);
    var a, b := Show(t[1..], ws), Show(t[1..], us);
    if t[0].Hole? {
      var j := t[0].k;
      AfterHole(t, ws);
      AfterHole(t, us);
      if ws[j] != us[j] {
        WordEnds(ws[j], a, us[j], b);
      }
      assert a == (ws[j] + a)[|ws[j]|..] && b == (us[j] + b)[|us[j]|..];
    } else {
      assert a == ([t[0].c] + a)[1..] && b == ([t[0].c] + b)[1..];
    }
    if t[0] != Hole(k) {
      assert Hole(k) in t[1..];
      ShowReads(t[1..], ws, us, k);
    }
  }

  lemma WordGoesOn(w: string, a: string, u: string, b: string)
    requires Word(w) && w + a == u + b && |u| < |w| && b != []
    ensures Alphanumeric(b[0])
  {
    assert (w + a)[|u|] == w[|u|] && (u + b)[|u|] == b[0];
  }

  /** A word ends where the first other character comes. */
  lemma WordEnds(w: string, a: string, u: string, b: string)
    requires Word(w) && Word(u) && w + a == u + b
    requires (a == [] && b == []) || (a != [] && b != [] && !Alphanumeric(a[0]) && !Alphanumeric(b[0]))
    ensures w == u
  {
    if a != [] && |u| < |w| {
      WordGoesOn(w, a, u, b);
    } else if a != [] && |w| < |u| {
      WordGoesOn(u, b, w, a);
    } else {
      assert w == (w + a)[..|w|] && u == (u + b)[..|u|];
    }
  }

  lemma MonTextWord(v: Values)
    requires Proper(v)
    ensures Word(MonText(v)) && Word(HeaderText(v))
  {
    ReplaceInWord(v.mon, "HNAME", v.header);
    NumbersWord(ReplaceAll(v.mon, "HNAME", v.header), v);
    NumbersWord(v.header, v);
  }

  lemma FilledAgree(v: Values)
    requires Proper(v)
    ensures var ws, us := Filled(MonText(v), HeaderText(v), v), Filled(v.mon, v.header, v);
            forall j :: 0 <= j < 7 ==> ws[j] == us[j] || (Word(ws[j]) && Word(us[j]))
  {
    MonTextWord(v);
  }

  /** Both names can be read off a text that shows them. */
  lemma {:induction false} NamesRead(t: seq<Piece>, v: Values)
    requires Worded(t) && Proper(v) && Hole(0) in t && Hole(1) in t
    requires Show(t, Filled(MonText(v), HeaderText(v), v)) == Show(t, Filled(v.mon, v.header, v))
    ensures MonText(v) == v.mon && HeaderText(v) == v.header
  {
    var ws, us := Filled(MonText(v), HeaderText(v), v), Filled(v.mon, v.header, v);
    FilledAgree(v);
    ShowReads(t, ws, us, 0);
    ShowReads(t, ws, us, 1);
  }

  /** Replacing the placeholders one after the other fills all places at once exactly when both names survive. */
  lemma SuccessiveIsSimultaneous(t: seq<Piece>, v: Values)
    requires Worded(t) && Proper(v) && Hole(0) in t && Hole(1) in t
    ensures Instantiated(Show(t, WORDS), v) == Show(t, Filled(v.mon, v.header, v)) <==> MonKept(v) && NumberFree(v.header)
  {
    MonitorTemplateText(t, v);
    MonKeptExact(v);
    HeaderKeptExact(v);
    if Instantiated(Show(t, WORDS), v) == Show(t, Filled(v.mon, v.header, v)) {
      NamesRead(t, v);
    }
  }

  /** Names without capitals survive. */
  lemma PlainNamesKept(v: Values)
    requires (forall i :: 0 <= i < |v.mon| ==> !IsUpper(v.mon[i])) && forall i :: 0 <= i < |v.header| ==> !IsUpper(v.header[i])
    ensures MonKept(v) && NumberFree(v.header)
  {
    NoCapitals(v.mon, "TIMEOUTVAL");
    NoCapitals(v.mon, "RECNUM");
    NoCapitals(v.mon, "IDNUM");
    NoCapitals(v.mon, "HNAME");
    NoCapitals(v.header, "TIMEOUTVAL");
    NoCapitals(v.header, "RECNUM");
    NoCapitals(v.header, "IDNUM");
  }

  lemma NoCapitals(s: string, p: string)
    requires Capitals(p) && forall i :: 0 <= i < |s| ==> !IsUpper(s[i])
    ensures !Occurs(p, s)
  {
    forall i | 0 <= i <= |s| ensures !(p <= s[i..]) {
      if p <= s[i..] {
        PrefixHas(p, s, i, p[0]);
      }
    }
  }

  /** A monitor named HNAME is renamed to its header. */
  lemma RenamedMonitor(v: Values)
    requires Proper(v) && v.mon == "HNAME" && v.header != "HNAME"
    ensures !MonKept(v) && MonText(v) != v.mon
  {
    assert "HNAME"[0..] == "HNAME" && Occurs("HNAME", v.mon);
    MonKeptExact(v);
  }

  // ----- the table the template declares -----

  function Literal(s: string): (t: seq<Piece>)
    ensures |t| == |s| && forall i :: 0 <= i < |s| ==> t[i] == Text(s[i])
  {
    seq(|s|, i requires 0 <= i < |s| => Text(s[i]))
  }

  lemma {:induction false} ShowLiteral(s: string, t: seq<Piece>, ws: seq<string>)
    ensures Show(Literal(s) + t, ws) == s + Show(t, ws)
  {
    if s == [] {
      assert Literal(s) + t == t;
    } else {
      assert (Literal(s) + t)[1..] == Literal(s[1..]) + t;
      ShowLiteral(s[1..], t, ws);
      assert [s[0]] + (s[1..] + Show(t, ws)) == s + Show(t, ws);
    }
  }

  lemma {:induction false} WordedLiteral(s: string, t: seq<Piece>)
    requires Worded(t) && forall i :: 0 <= i < |s| ==> !IsUpper(s[i])
    ensures Worded(Literal(s) + t)
  {
    if s != [] {
      WordedLiteral(s[1..], t);
      var u := Literal(s[1..]) + t;
      assert Literal(s) + t == [Text(s[0])] + u;
      WordedCons(Text(s[0]), u);
    } else {
      assert Literal(s) + t == t;
    }
  }

  lemma {:induction false} WordedCons(p: Piece, u: seq<Piece>)
    requires Worded(u)
    requires p.Text? ==> !IsUpper(p.c)
    requires p.Hole? ==> p.k < 7 && (u != [] ==> u[0].Text? && !Alphanumeric(u[0].c))
    requires p.Hole? && |u| > 1 && u[0] == Text('_') && u[1].Hole? ==> u[1].k == 6
    ensures Worded([p] + u)
  {
    var t := [p] + u;
    assert forall i :: 0 < i < |t| ==> t[i] == u[i - 1];
    forall i | 0 <= i < |t| - 1 && t[i].Hole? ensures t[i + 1].Text? && !Alphanumeric(t[i + 1].c) {
      assert t[i + 1] == u[i];
      assert i > 0 ==> u[i] == u[i - 1 + 1];
    }
    forall i | 0 <= i < |t| - 2 && t[i].Hole? && t[i + 1] == Text('_') && t[i + 2].Hole? ensures t[i + 2].k == 6 {
      assert t[i + 1] == u[i] && t[i + 2] == u[i + 1];
      assert i > 0 ==> u[i] == u[i - 1 + 1] && u[i + 1] == u[i - 1 + 2];
    }
  }

  /** The name in the template's evaluation table, from its last part on. */
  function IdPart(): seq<Piece> { Literal("_id") + [Hole(4)] }
  function RecPart(): seq<Piece> { Literal("_tab_rec") + ([Hole(3)] + IdPart()) }
  function TableLine(): seq<Piece> { Literal("eval_") + ([Hole(0)] + RecPart()) }

  /** A part that starts with an underscore and another character. */
  predicate Continues(u: seq<Piece>) {
    Worded(u) && |u| > 1 && u[0] == Text('_') && u[1].Text?
  }

  lemma LiteralContinues(s: string, t: seq<Piece>)
    requires Worded(t) && |s| > 1 && s[0] == '_' && forall i :: 0 <= i < |s| ==> !IsUpper(s[i])
    ensures Continues(Literal(s) + t)
  {
    WordedLiteral(s, t);
  }

  lemma HoleContinues(k: nat, u: seq<Piece>)
    requires k < 7 && Continues(u)
    ensures Worded([Hole(k)] + u)
  {
    WordedCons(Hole(k), u);
  }

  lemma ShowHole(k: nat, u: seq<Piece>, ws: seq<string>)
    requires k < |ws|
    ensures Show([Hole(k)] + u, ws) == ws[k] + Show(u, ws)
  {
    assert ([Hole(k)] + u)[1..] == u;
  }

  lemma IdPartContinues()
    ensures Continues(IdPart())
  {
    LiteralContinues("_id", [Hole(4)]);
  }

  lemma {:induction false} RecPartContinues()
    ensures Continues(RecPart())
  {
    IdPartContinues();
    HoleContinues(3, IdPart());
    LiteralContinues("_tab_rec", [Hole(3)] + IdPart());
  }

  lemma {:induction false} TableLineWorded()
    ensures Worded(TableLine())
  {
    RecPartContinues();
    HoleContinues(0, RecPart());
    WordedLiteral("eval_", [Hole(0)] + RecPart());
  }

  lemma IdPartShown(ws: seq<string>)
    requires |ws| == 7
    ensures Show(IdPart(), ws) == "_id" + ws[4]
  {
    ShowLiteral("_id", [Hole(4)], ws);
    ShowHole(4, [], ws);
    assert [Hole(4)] + [] == [Hole(4)] && ws[4] + [] == ws[4];
  }

  lemma RecPartShown(ws: seq<string>)
    requires |ws| == 7
    ensures Show(RecPart(), ws) == "_tab_rec" + (ws[3] + Show(IdPart(), ws))
  {
    ShowLiteral("_tab_rec", [Hole(3)] + IdPart(), ws);
    ShowHole(3, IdPart(), ws);
  }

  lemma TableLineShown(ws: seq<string>)
    requires |ws| == 7
    ensures Show(TableLine(), ws) == "eval_" + (ws[0] + Show(RecPart(), ws))
  {
    ShowLiteral("eval_", [Hole(0)] + RecPart(), ws);
    ShowHole(0, RecPart(), ws);
  }

  lemma FiveParts(a: string, b: string, c: string, d: string, e: string, f: string)
    ensures a + (b + (c + (d + (e + f)))) == a + b + c + d + e + f
  {
  }

  /** The name with its three variable parts. */
  function LineText(mon: string, rec: string, id: string): string {
    "eval_" + mon + "_tab_rec" + rec + "_id" + id
  }

  lemma {:induction false} TableLineText(ws: seq<string>)
    requires |ws| == 7
    ensures Show(TableLine(), ws) == LineText(ws[0], ws[3], ws[4])
  {
    IdPartShown(ws);
    RecPartShown(ws);
    TableLineShown(ws);
    FiveParts("eval_", ws[0], "_tab_rec", ws[3], "_id", ws[4]);
  }

  /** The name of the table that the instantiated template declares. */
  lemma {:induction false} DeclaredTable(v: Values)
    requires Proper(v)
    ensures Instantiated(Show(TableLine(), WORDS), v) == LineText(MonText(v), v.rec, v.id)
  {
    var ws := Filled(MonText(v), HeaderText(v), v);
    TableLineWorded();
    MonitorTemplateText(TableLine(), v);
    TableLineText(ws);
    assert ws[0] == MonText(v) && ws[3] == v.rec && ws[4] == v.id;
  }
}
