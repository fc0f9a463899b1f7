/** Which lines the parser gets right, and which maps survive being printed and read back. */
module ConfigTheorems {
  import opened Bytes
  import opened Config

  lemma FindIs(s: string, c: char, i: nat)
    requires i <= |s| && (i < |s| ==> s[i] == c) && forall j :: 0 <= j < i ==> s[j] != c
    ensures Find(s, c) == i
  {
    var f := Find(s, c);
    assert !(f < i) && !(i < f);
  }

  // ---- Single lines ---------------------------------------------------------------------------------------

  /** What a line means: the part before the comment is cut at the first equals sign and both parts are trimmed. */
  function Meaning(line: string): Option<Entry> {
    var text := line[..Find(line, '#')];
    var pos := Find(text, '=');
    if pos == |text| || Trim(text[..pos]) == "" then None
    else Some((Trim(text[..pos]), Trim(text[pos + 1..])))
  }

  /** Only the first two characters precede the comment or the end, and they are a key and an equals sign. */
  predicate TooShort(line: string) {
    Find(line, '#') == 2 && Find(line, '=') == 1 && !IsSpace(line[0])
  }

  /** At least three characters precede the comment, and the first equals sign is in the comment. */
  predicate EqualsInComment(line: string) {
    3 <= Find(line, '#') < Find(line, '=') < |line|
  }

  /** What the two sides make of a line whose comment starts at index 3 or later. */
  lemma LongLine(line: string)
    requires Find(line, '#') >= 3
    ensures Analyse(line) == Meaning(line) <==> !EqualsInComment(line)
  {
    var comment: int, pos: int := Find(line, '#'), Find(line, '=');
    var text := line[..comment];
    assert Substr(line, 0, 2 - comment) == line;
    FindIs(text, '=', if pos < comment then pos else comment);
    hide Find, Trim;
    if pos < comment {
      assert line[..pos] == text[..pos] && Substr(line, pos + 1, comment - (pos + 1)) == text[pos + 1..];
    } else if pos < |line| {
      KeyWithHash(line[..pos], comment);
    }
  }

  lemma KeyWithHash(key: string, i: nat)
    requires i < |key| && key[i] == '#'
    ensures Trim(key) != ""
  {
    assert !IsSpace(key[i]);
  }

  lemma ShortLine(line: string)
    requires Find(line, '#') < 3
    ensures Analyse(line) == Meaning(line) <==> !TooShort(line)
  {
    var comment: int, pos: int := Find(line, '#'), Find(line, '=');
    var text := line[..comment];
    FindIs(text, '=', if pos < comment then pos else comment);
    if comment == 2 {
      assert Substr(line, 0, 0) == "";
      if pos < 2 {
        assert text[..pos] == line[..pos];
      }
    } else if comment == 1 {
      assert Substr(line, 0, 1) == line[..1] == text;
    }
  }

  /** Because of the wrong count the parser drops entries of two characters and reads some comments as entries. */
  lemma AnalyseIff(line: string)
    ensures Analyse(line) == Meaning(line) <==> !TooShort(line) && !EqualsInComment(line)
  {
    hide Analyse, Meaning;
    if Find(line, '#') >= 3 {
      LongLine(line);
    } else {
      ShortLine(line);
    }
  }

  // ---- Round trip of one entry ----------------------------------------------------------------------------

  /** Where the comment of the printed line starts. */
  function CommentIn(k: string, v: string): nat {
    Find(Line(k, v), '#')
  }

  /** The entries that survive; a hash sign in the key, not too far to the left, protects one in the value. */
  predicate Clean(k: string, v: string) {
    && k != "" && Trimmed(k) && '=' !in k && '\n' !in k
    && Trimmed(v) && '\n' !in v
    && CommentIn(k, v) >= 3 && ('#' in v ==> '#' in k)
  }

  lemma ShortNone(line: string)
    requires Find(line, '#') < 3
    ensures Analyse(line) == None
  {
    var comment: int := Find(line, '#');
    if comment == 2 {
      assert Substr(line, 0, 0) == "";
    } else if comment == 1 {
      assert Substr(line, 0, 1) == line[..1];
    }
  }

  lemma LongWhole(line: string)
    requires Find(line, '#') >= 3
    ensures Analyse(line) == SplitEntry(line, Find(line, '#'))
  {
    assert Substr(line, 0, 2 - Find(line, '#') as int) == line;
    hide SplitEntry;
  }

  lemma ValueIff(k: string, v: string)
    requires '=' !in k
    ensures var comment: int := CommentIn(k, v);
            Trim(Substr(Line(k, v), |k| + 1, comment - (|k| + 1))) == v <==> Trimmed(v) && ('#' in v ==> '#' in k)
  {
    hide Trim, Find;
    var line, comment: int := Line(k, v), CommentIn(k, v);
    assert line[|k| + 1..] == v;
    if '#' in k {
      var i :| 0 <= i < |k| && k[i] == '#';
      assert line[i] == '#';
      assert Substr(line, |k| + 1, comment - (|k| + 1)) == v;
    } else if '#' in v {
      var i :| 0 <= i < |v| && v[i] == '#';
      assert line[|k| + 1 + i] == '#';
      assert forall j :: 0 <= j < |k| ==> line[j] == k[j];
      assert line[|k|] == '=';
      assert comment > |k|;
    } else {
      FindIs(line, '#', |line|);
      assert Substr(line, |k| + 1, comment - (|k| + 1)) == v;
    }
  }

  lemma KeyWithEquals(k: string, v: string)
    requires '=' in k && CommentIn(k, v) >= 3
    ensures Analyse(Line(k, v)) != Some((k, v))
  {
    var line := Line(k, v);
    LongWhole(line);
    hide Analyse;
    var i :| 0 <= i < |k| && k[i] == '=';
    assert line[i] == '=';
    assert Find(line, '=') < |k|;
  }

  lemma KeyWithoutEquals(k: string, v: string)
    requires '=' !in k && CommentIn(k, v) >= 3
    ensures var value := Trim(Substr(Line(k, v), |k| + 1, CommentIn(k, v) as int - (|k| + 1)));
            Analyse(Line(k, v)) == if Trim(k) == "" then None else Some((Trim(k), value))
  {
    hide Find, Trim, Substr, Analyse;
    var line := Line(k, v);
    LongWhole(line);
    assert line[|k|] == '=' && line[..|k|] == k;
    FindIs(line, '=', |k|);
  }

  lemma LineIff(k: string, v: string)
    requires '\n' !in k && '\n' !in v
    ensures Analyse(Line(k, v)) == Some((k, v)) <==> Clean(k, v)
  {
    if CommentIn(k, v) < 3 {
      ShortNone(Line(k, v));
    } else if '=' in k {
      KeyWithEquals(k, v);
    } else {
      KeyWithoutEquals(k, v);
      ValueIff(k, v);
      hide Analyse, CommentIn, Line, Substr;
    }
  }

  // ---- Round trip of a map --------------------------------------------------------------------------------

  predicate Different(order: seq<string>) {
    forall i, j :: 0 <= i < j < |order| ==> order[i] != order[j]
  }

  /** order is an enumeration of the keys of m. */
  ghost predicate Enumerates(order: seq<string>, m: map<string, string>) {
    (forall k :: k in order <==> k in m) && Different(order)
  }

  predicate OneLine(k: string, v: string) {
    '\n' !in k && '\n' !in v
  }

  function Printed(m: map<string, string>, order: seq<string>): (lines: seq<string>)
    requires forall k <- order :: k in m
    ensures |lines| == |order| && forall i :: 0 <= i < |order| ==> lines[i] == Line(order[i], m[order[i]])
  {
    seq(|order|, i requires 0 <= i < |order| => Line(order[i], m[order[i]]))
  }

  lemma FirstLine(line: string, rest: string)
    requires '\n' !in line
    ensures Lines(line + "\n" + rest) == [line] + Lines(rest)
  {
    var text := line + "\n" + rest;
    FindIs(text, '\n', |line|);
    assert text[..|line|] == line && text[|line| + 1..] == rest;
  }

  lemma LineIsOneLine(k: string, v: string)
    requires OneLine(k, v)
    ensures '\n' !in Line(k, v)
  {
  }

  lemma {:induction false} LinesOfPrint(m: map<string, string>, order: seq<string>)
    requires forall k <- order :: k in m && OneLine(k, m[k])
    ensures Lines(Print(m, order)) == Printed(m, order)
  {
    if order != [] {
      var line := Line(order[0], m[order[0]]);
      LineIsOneLine(order[0], m[order[0]]);
      LinesOfPrint(m, order[1..]);
      hide OneLine, Line, Lines;
      FirstLine(line, Print(m, order[1..]));
      assert Printed(m, order) == [line] + Printed(m, order[1..]);
    } else {
      assert Printed(m, order) == [];
    }
  }

  /** The key read from a line is no longer than the key printed, and as long only when it is the same. */
  lemma KeyShrinks(k: string, v: string)
    ensures Analyse(Line(k, v)).Some? ==>
              var key := Analyse(Line(k, v)).value.0; |key| <= |k| && (|key| == |k| ==> key == k)
  {
    var line := Line(k, v);
    assert line[|k|] == '=' && line[..|k|] == k;
    if CommentIn(k, v) < 3 {
      ShortNone(line);
    } else {
      LongWhole(line);
      hide Analyse;
      assert Find(line, '=') <= |k|;
    }
  }

  /** The values a line yields consist of its own characters. */
  lemma AnalyseChars(line: string)
    requires Analyse(line).Some?
    ensures var e := Analyse(line).value; (forall c <- e.0 :: c in line) && (forall c <- e.1 :: c in line)
  {
  }

  lemma {:induction false} CollectHas(lines: seq<string>, k: string)
    requires k in Collect(lines)
    ensures exists j :: 0 <= j < |lines| && Analyse(lines[j]) == Some((k, Collect(lines)[k]))
  {
    var last := |lines| - 1;
    hide Analyse;
    if Analyse(lines[last]).Some? && Analyse(lines[last]).value.0 == k {
    } else {
      CollectHas(lines[..last], k);
      var j :| 0 <= j < last && Analyse(lines[..last][j]) == Some((k, Collect(lines[..last])[k]));
      assert lines[j] == lines[..last][j];
    }
  }

  /** No key read is longer than the one printed, and as long only when it is the same. */
  predicate Shrinking(order: seq<string>, got: seq<Option<string>>) {
    |order| == |got| && forall i :: 0 <= i < |got| && got[i].Some? ==>
      |got[i].value| <= |order[i]| && (|got[i].value| == |order[i]| ==> got[i].value == order[i])
  }

  /** Every key was read from some line. */
  predicate Complete(order: seq<string>, got: seq<Option<string>>) {
    forall i :: 0 <= i < |order| ==> Some(order[i]) in got
  }

  /** If no key has grown and every key is there, every line yields its own key: the longest keys first. */
  lemma {:induction false} KeysInPlace(order: seq<string>, got: seq<Option<string>>, n: nat, max: nat)
    requires Different(order) && Shrinking(order, got) && Complete(order, got)
    requires forall i :: 0 <= i < |order| ==> |order[i]| <= max
    ensures forall i :: 0 <= i < |order| && |order[i]| >= n ==> got[i] == Some(order[i])
    decreases max - n
  {
    if n <= max {
      KeysInPlace(order, got, n + 1, max);
      forall i | 0 <= i < |order| && |order[i]| == n ensures got[i] == Some(order[i]) {
        assert Some(order[i]) in got;
        hide Complete;
        var j :| 0 <= j < |got| && got[j] == Some(order[i]);
        assert |order[j]| == n;
      }
    }
  }

  lemma {:induction false} LengthBound(order: seq<string>) returns (max: nat)
    ensures forall i :: 0 <= i < |order| ==> |order[i]| <= max
  {
    if order == [] {
      max := 0;
    } else {
      var last := |order| - 1;
      max := LengthBound(order[..last]);
      assert forall i :: 0 <= i < last ==> order[i] == order[..last][i];
      if |order[last]| > max {
        max := |order[last]|;
      }
    }
  }

  /** Every line yields its entry. */
  predicate InPlace(m: map<string, string>, order: seq<string>, lines: seq<string>) {
    |order| == |lines|
    && forall i :: 0 <= i < |order| ==> order[i] in m && Analyse(lines[i]) == Some((order[i], m[order[i]]))
  }

  lemma {:induction false} CollectAll(m: map<string, string>, order: seq<string>, lines: seq<string>)
    requires Different(order) && InPlace(m, order, lines)
    ensures forall k :: k in Collect(lines) <==> k in order
    ensures forall k <- order :: k in m && Collect(lines)[k] == m[k]
  {
    hide Analyse;
    if order != [] {
      var last := |order| - 1;
      var k := order[last];
      CollectAll(m, order[..last], lines[..last]);
      assert order == order[..last] + [k];
      assert Collect(lines) == Collect(lines[..last])[k := m[k]];
    }
  }

  /** An entry that spans lines never comes back. */
  lemma SpansLines(text: string, k: string)
    requires k in Read(text)
    ensures OneLine(k, Read(text)[k])
  {
    CollectHas(Lines(text), k);
    var j :| 0 <= j < |Lines(text)| && Analyse(Lines(text)[j]) == Some((k, Read(text)[k]));
    AnalyseChars(Lines(text)[j]);
  }

  lemma CleanLine(k: string, v: string)
    requires Clean(k, v)
    ensures OneLine(k, v) && Analyse(Line(k, v)) == Some((k, v))
  {
    LineIff(k, v);
  }

  lemma CleanComesBack(m: map<string, string>, order: seq<string>)
    requires Enumerates(order, m) && forall k <- m :: Clean(k, m[k])
    ensures Read(Print(m, order)) == m
  {
    hide Analyse, Clean, Line, Print, Lines, Collect, OneLine;
    forall k | k in m ensures OneLine(k, m[k]) && Analyse(Line(k, m[k])) == Some((k, m[k])) {
      CleanLine(k, m[k]);
    }
    LinesOfPrint(m, order);
    CollectAll(m, order, Printed(m, order));
  }

  /** The keys the printed lines yield. */
  function KeysRead(m: map<string, string>, order: seq<string>): (got: seq<Option<string>>)
    requires forall k <- order :: k in m
    ensures Shrinking(order, got)
    ensures forall i :: 0 <= i < |order| ==> var e := Analyse(Line(order[i], m[order[i]]));
              got[i] == if e.Some? then Some(e.value.0) else None
  {
    var got := seq(|order|, i requires 0 <= i < |order| =>
      var e := Analyse(Line(order[i], m[order[i]]));
      if e.Some? then Some(e.value.0) else None);
    assert Shrinking(order, got) by {
      forall i | 0 <= i < |got| && got[i].Some?
        ensures |got[i].value| <= |order[i]| && (|got[i].value| == |order[i]| ==> got[i].value == order[i])
      {
        KeyShrinks(order[i], m[order[i]]);
      }
    }
    got
  }

  /** When the map comes back, every entry was read from some line. */
  lemma ReadSomewhere(m: map<string, string>, order: seq<string>, k: string)
    requires Enumerates(order, m) && Collect(Printed(m, order)) == m && k in m
    ensures exists j :: 0 <= j < |order| && Analyse(Line(order[j], m[order[j]])) == Some((k, m[k]))
  {
    CollectHas(Printed(m, order), k);
    var j :| 0 <= j < |order| && Analyse(Printed(m, order)[j]) == Some((k, m[k]));
  }

  lemma ComesBackClean(m: map<string, string>, order: seq<string>, i: nat)
    requires Enumerates(order, m) && Collect(Printed(m, order)) == m && i < |order|
    ensures Analyse(Line(order[i], m[order[i]])) == Some((order[i], m[order[i]]))
  {
    var got := KeysRead(m, order);
    var max := LengthBound(order);
    hide Analyse, Line, Collect, KeysRead;
    forall a | 0 <= a < |order| ensures Some(order[a]) in got {
      ReadSomewhere(m, order, order[a]);
      var j :| 0 <= j < |order| && Analyse(Line(order[j], m[order[j]])) == Some((order[a], m[order[a]]));
      assert got[j] == Some(order[a]);
    }
    KeysInPlace(order, got, 0, max);
    ReadSomewhere(m, order, order[i]);
    var j :| 0 <= j < |order| && Analyse(Line(order[j], m[order[j]])) == Some((order[i], m[order[i]]));
    assert got[j] == Some(order[i]);
    assert i == j;
  }

  /**
   * Printing a map and reading the lines back gives the same map, whatever order it is printed in, if and only if
   * every entry is clean.
   */
  lemma RoundTripIff(m: map<string, string>, order: seq<string>)
    requires Enumerates(order, m)
    ensures Read(Print(m, order)) == m <==> forall k <- m :: Clean(k, m[k])
  {
    if forall k <- m :: Clean(k, m[k]) {
      CleanComesBack(m, order);
    } else if Read(Print(m, order)) == m {
      forall k | k in m ensures OneLine(k, m[k]) {
        SpansLines(Print(m, order), k);
      }
      LinesOfPrint(m, order);
      forall k | k in m ensures Clean(k, m[k]) {
        assert k in order;
        var i :| 0 <= i < |order| && order[i] == k;
        ComesBackClean(m, order, i);
        LineIff(k, m[k]);
      }
      assert false;
    }
  }

  // ---- Whole texts ----------------------------------------------------------------------------------------

  predicate Blank(s: string) {
    forall c <- s :: c == ' ' || c == '\t'
  }

  /** t is s from i to j, and only blanks are left off. */
  predicate Middle(s: string, t: string, i: nat, j: nat) {
    i <= j <= |s| && t == s[i..j] && Blank(s[..i]) && Blank(s[j..])
  }

  lemma MiddleBehind(s: string, t: string, i: nat, j: nat)
    requires s != "" && (s[0] == ' ' || s[0] == '\t') && Middle(s[1..], t, i, j)
    ensures Middle(s, t, i + 1, j + 1)
  {
    assert s[..i + 1] == [s[0]] + s[1..][..i];
    assert s[1..][i..j] == s[i + 1..j + 1] && s[1..][j..] == s[j + 1..];
  }

  lemma MiddleBefore(s: string, t: string, i: nat, j: nat)
    requires s != "" && (s[|s| - 1] == ' ' || s[|s| - 1] == '\t') && Middle(s[..|s| - 1], t, i, j)
    ensures Middle(s, t, i, j)
  {
    var init := s[..|s| - 1];
    assert init[i..j] == s[i..j] && init[..i] == s[..i];
    assert s[j..] == init[j..] + [s[|s| - 1]];
  }

  /** Only spaces and tabs are removed, at the two ends. */
  lemma {:induction false} TrimIs(s: string) returns (i: nat, j: nat)
    ensures Middle(s, Trim(s), i, j)
    decreases |s|
  {
    hide Middle;
    if s == "" {
      i, j := 0, 0;
      MiddleWhole(s);
    } else if IsSpace(s[0]) {
      i, j := TrimIs(s[1..]);
      MiddleBehind(s, Trim(s[1..]), i, j);
      i, j := i + 1, j + 1;
    } else if IsSpace(s[|s| - 1]) {
      i, j := TrimIs(s[..|s| - 1]);
      MiddleBefore(s, Trim(s[..|s| - 1]), i, j);
    } else {
      i, j := 0, |s|;
      MiddleWhole(s);
    }
  }

  /** What is left neither begins nor ends with a space or tab. */
  lemma TrimEnds(s: string)
    ensures var t := Trim(s); t != "" ==> !Blank(t[..1]) && !Blank(t[|t| - 1..])
  {
    var t := Trim(s);
    if t != "" {
      assert t[0] in t[..1] && t[|t| - 1] in t[|t| - 1..];
    }
  }

  lemma MiddleWhole(s: string)
    ensures Middle(s, s, 0, |s|)
  {
    assert s[..0] == "" && s[|s|..] == "";
  }

  /** Lines with their line ends. */
  function Ended(lines: seq<string>): string {
    if lines == [] then "" else lines[0] + "\n" + Ended(lines[1..])
  }

  lemma OneEnded(line: string, rest: seq<string>)
    ensures Ended([line] + rest) == line + "\n" + Ended(rest)
  {
    assert ([line] + rest)[1..] == rest;
  }

  /** The lines of a text put together again: the text, with a line end behind the last line if there was none. */
  lemma {:induction false} LinesAre(text: string)
    ensures Ended(Lines(text)) == if text == "" || text[|text| - 1] == '\n' then text else text + "\n"
    decreases |text|
  {
    hide Ended, Lines, Find;
    NoLines();
    if text != "" {
      var n := Find(text, '\n');
      if n < |text| {
        LineAndRest(text, n);
        OneEnded(text[..n], Lines(text[n + 1..]));
        LinesAre(text[n + 1..]);
        assert text == text[..n] + "\n" + text[n + 1..];
      } else {
        OnlyLine(text);
        OneEnded(text, []);
      }
    }
  }

  lemma NoLines()
    ensures Lines("") == [] && Ended([]) == ""
  {
  }

  lemma LineAndRest(text: string, n: nat)
    requires n == Find(text, '\n') < |text|
    ensures Lines(text) == [text[..n]] + Lines(text[n + 1..])
  {
  }

  lemma OnlyLine(text: string)
    requires text != "" && Find(text, '\n') == |text|
    ensures Lines(text) == [text] + []
  {
    assert text[..|text|] == text;
  }

  /** Line i gives the key k, and no later line does. */
  predicate LastWith(lines: seq<string>, i: nat, k: string) {
    i < |lines| && Analyse(lines[i]).Some? && Analyse(lines[i]).value.0 == k
    && forall j :: i < j < |lines| ==> !(Analyse(lines[j]).Some? && Analyse(lines[j]).value.0 == k)
  }

  lemma {:induction false} LastLineWins(lines: seq<string>, k: string)
    ensures k in Collect(lines) <==> exists i :: 0 <= i < |lines| && LastWith(lines, i, k)
    ensures forall i :: 0 <= i < |lines| && LastWith(lines, i, k) ==>
              k in Collect(lines) && Collect(lines)[k] == Analyse(lines[i]).value.1
  {
    hide Analyse;
    if lines != [] {
      var init, last := lines[..|lines| - 1], |lines| - 1;
      LastLineWins(init, k);
      if Analyse(lines[last]).Some? && Analyse(lines[last]).value.0 == k {
        assert LastWith(lines, last, k);
      } else {
        forall i | 0 <= i < last ensures LastWith(lines, i, k) <==> LastWith(init, i, k) {
        }
        assert !LastWith(lines, last, k);
      }
    }
  }

  /** The value read for a key is that of the last line that has the key. */
  lemma ReadIs(text: string, k: string)
    ensures k in Read(text) <==> exists i :: 0 <= i < |Lines(text)| && LastWith(Lines(text), i, k)
    ensures forall i :: 0 <= i < |Lines(text)| && LastWith(Lines(text), i, k) ==>
              k in Read(text) && Read(text)[k] == Analyse(Lines(text)[i]).value.1
  {
    LastLineWins(Lines(text), k);
  }
}
