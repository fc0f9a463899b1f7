/** The configuration file: key=value lines with # comments. */
module Config {
  import opened Bytes

  predicate IsSpace(c: char) {
    c == ' ' || c == '\t'
  }

  /** std::string::substr, where a negative count has become a huge one. */
  function Substr(s: string, pos: nat, count: int): string
    requires pos <= |s|
  {
    if count < 0 || pos + count > |s| then s[pos..] else s[pos..pos + count]
  }

  /** The index of the first c in s, or |s| when there is none. */
  function Find(s: string, c: char): (i: nat)
    ensures i <= |s| && (i < |s| ==> s[i] == c) && forall j :: 0 <= j < i ==> s[j] != c
  {
    if s == "" || s[0] == c then 0 else 1 + Find(s[1..], c)
  }

  function Trim(s: string): (t: string)
    ensures |t| <= |s| && Trimmed(t) && (|t| == |s| ==> t == s) && (forall c <- t :: c in s)
    ensures t == "" <==> forall c <- s :: IsSpace(c)
    ensures Trimmed(s) ==> t == s
  {
    if s == "" then ""
    else if IsSpace(s[0]) then Trim(s[1..])
    else if IsSpace(s[|s| - 1]) then Trim(s[..|s| - 1])
    else s
  }

  predicate Trimmed(s: string) {
    s != "" ==> !IsSpace(s[0]) && !IsSpace(s[|s| - 1])
  }

  type Entry = (string, string)

  /** The second half of AnalyseLine; comment is the index of the comment in the whole line. */
  function SplitEntry(newLine: string, comment: int): Option<Entry> {
    var pos := Find(newLine, '=');
    if pos == |newLine| then None
    else
      var key := Trim(newLine[..pos]);
      if key == "" then None else Some((key, Trim(Substr(newLine, pos + 1, comment - (pos + 1)))))
  }

  /** AnalyseLine, with the count start_pos + 1 - end_pos that its first substr is given. */
  function Analyse(line: string): Option<Entry> {
    var comment := Find(line, '#');
    if line == "" || comment == 0 then None else SplitEntry(Substr(line, 0, 2 - comment), comment)
  }

  /** The lines getline yields. */
  function Lines(text: string): (lines: seq<string>)
    ensures forall line <- lines :: '\n' !in line
    decreases |text|
  {
    if text == "" then []
    else
      var n := Find(text, '\n');
      [text[..n]] + if n == |text| then [] else Lines(text[n + 1..])
  }

  function Insert(m: map<string, string>, e: Option<Entry>): map<string, string> {
    if e.Some? then m[e.value.0 := e.value.1] else m
  }

  function Collect(lines: seq<string>): map<string, string> {
    if lines == [] then map[] else Insert(Collect(lines[..|lines| - 1]), Analyse(lines[|lines| - 1]))
  }

  /** ReadConfig */
  function Read(text: string): map<string, string> {
    Collect(Lines(text))
  }

  /** The line for one entry. */
  function Line(k: string, v: string): string {
    k + "=" + v
  }

  /** PrintConfig, for whatever order the map has. */
  function Print(m: map<string, string>, order: seq<string>): string
    requires forall k <- order :: k in m
  {
    if order == [] then "" else Line(order[0], m[order[0]]) + "\n" + Print(m, order[1..])
  }

  lemma TrimFront(s: string, i: nat)
    requires i < |s| && IsSpace(s[i])
    ensures Trim(s[i..]) == Trim(s[i + 1..])
  {
    assert s[i..][1..] == s[i + 1..];
  }

  lemma TrimBack(s: string, start: nat, i: nat)
    requires start <= i < |s| && !IsSpace(s[start]) && IsSpace(s[i])
    ensures start < i && Trim(s[start..i + 1]) == Trim(s[start..i])
  {
    assert s[start..i + 1][..i - start] == s[start..i];
  }

  lemma TrimNothing(s: string, start: nat, i: nat)
    requires start <= i < |s| && !IsSpace(s[start]) && !IsSpace(s[i])
    ensures Trim(s[start..i + 1]) == s[start..i + 1]
  {
  }

  // ---- The code as it runs --------------------------------------------------------------------------------

  method TrimString(str: string) returns (r: string)
    ensures r == Trim(str)
  {
    if str == "" {
      return str;
    }
    hide Trim, IsSpace;
    var i := 0;
    assert str[0..] == str;
    while i < |str|
      invariant 0 <= i <= |str| && Trim(str[i..]) == Trim(str)
    {
      if !IsSpace(str[i]) {
        break;
      }
      TrimFront(str, i);
      i := i + 1;
    }
    if i == |str| {
      assert str[i..] == "";
      return "";
    }
    var start := i;
    i := |str| - 1;
    assert str[start..i + 1] == str[start..];
    while i >= start
      invariant start <= i < |str| && Trim(str[start..i + 1]) == Trim(str)
    {
      if !IsSpace(str[i]) {
        break;
      }
      TrimBack(str, start, i);
      i := i - 1;
    }
    TrimNothing(str, start, i);
    r := str[start..i + 1];
  }

  method AnalyseLine(line: string) returns (ok: bool, key: string, value: string)
    ensures Analyse(line) == if ok then Some((key, value)) else None
  {
    hide Trim, Substr;
    key, value := "", "";
    if line == "" {
      return false, key, value;
    }
    var startPos, endPos := 0, |line| - 1;
    var pos := Find(line, '#');
    if pos < |line| {
      if 0 == pos {
        return false, key, value;
      }
      endPos := pos - 1;
    }
    var newLine := Substr(line, startPos, startPos + 1 - endPos);
    pos := Find(newLine, '=');
    if pos == |newLine| {
      return false, key, value;
    }
    key := newLine[..pos];
    value := Substr(newLine, pos + 1, endPos + 1 - (pos + 1));
    key := TrimString(key);
    if key == "" {
      return false, key, value;
    }
    value := TrimString(value);
    return true, key, value;
  }

  lemma CollectOne(lines: seq<string>, line: string)
    ensures Collect(lines + [line]) == Insert(Collect(lines), Analyse(line))
  {
    assert (lines + [line])[..|lines|] == lines;
  }

  /** The map being filled and the file; None stands for a file that cannot be opened. */
  class Reader {
    var m: map<string, string>

    method ReadConfig(infile: Option<string>) returns (ok: bool)
      modifies this
      ensures ok == infile.Some? && m == if ok then Read(infile.value) else map[]
    {
      m := map[];
      if infile.None? {
        return false;
      }
      var rest := infile.value;
      ghost var seen: seq<string> := [];
      while rest != ""
        invariant seen + Lines(rest) == Lines(infile.value) && m == Collect(seen)
        decreases |rest|
      {
        var n := Find(rest, '\n');
        var line, next := rest[..n], if n == |rest| then "" else rest[n + 1..];
        Regroup(seen, [line], Lines(next));
        CollectOne(seen, line);
        var found, key, value := AnalyseLine(line);
        assert Lines(rest) == [line] + Lines(next);
        hide Lines, Collect, Analyse, Find;
        if found {
          m := m[key := value];
        }
        seen, rest := seen + [line], next;
      }
      assert seen == Lines(infile.value);
      return true;
    }
  }

  /** The map's own iteration order is an argument. */
  method PrintConfig(m: map<string, string>, order: seq<string>) returns (out: string)
    requires forall k <- order :: k in m
    ensures out == Print(m, order)
  {
    out := "";
    var i := 0;
    while i < |order|
      invariant 0 <= i <= |order| && out + Print(m, order[i..]) == Print(m, order)
    {
      var line := Line(order[i], m[order[i]]) + "\n";
      assert order[i..][1..] == order[i + 1..];
      Regroup(out, line, Print(m, order[i + 1..]));
      out := out + line;
      i := i + 1;
    }
  }
}
