/** The lines of a text, and the words of a line. */
module Lines {
  /** Python 2's white space. */
  predicate IsSpace(c: char) {
    c == ' ' || '\t' <= c <= '\r'
  }

  /** `text.split("\n")`. */
  function Split(text: string): (lines: seq<string>)
    ensures lines != []
  {
    if text == "" then [""]
    else
      var rest := Split(text[1..]);
      if text[0] == '\n' then [""] + rest else [[text[0]] + rest[0]] + rest[1..]
  }

  /** Every line followed by a newline. */
  function Text(lines: seq<string>): string {
    if lines == [] then "" else lines[0] + "\n" + Text(lines[1..])
  }

  ghost predicate OneLine(line: string) {
    '\n' !in line
  }

  ghost predicate AreLines(lines: seq<string>) {
    forall i :: 0 <= i < |lines| ==> OneLine(lines[i])
  }

  lemma {:induction false} SplitIsLines(text: string)
    ensures AreLines(Split(text))
    decreases |text|
  {
    if text != "" {
      SplitIsLines(text[1..]);
      var rest := Split(text[1..]);
      assert OneLine(rest[0]);
      assert OneLine("");
    }
  }

  /** Joining what was split gives the text back, with a newline at its end. */
  lemma {:induction false} TextOfSplit(text: string)
    ensures Text(Split(text)) == text + "\n"
    decreases |text|
  {
    if text != "" {
      TextOfSplit(text[1..]);
      var rest := Split(text[1..]);
      assert text == [text[0]] + text[1..];
      if text[0] == '\n' {
        assert ([""] + rest)[1..] == rest;
      } else {
        var head := [text[0]] + rest[0];
        assert ([head] + rest[1..])[1..] == rest[1..];
        assert head + "\n" + Text(rest[1..]) == [text[0]] + (rest[0] + "\n" + Text(rest[1..]));
      }
    } else {
      assert Split(text)[1..] == [];
    }
  }

  lemma {:induction false} SplitFirstLine(line: string, rest: string)
    requires OneLine(line)
    ensures Split(line + "\n" + rest) == [line] + Split(rest)
    decreases |line|
  {
    var text := line + "\n" + rest;
    if line == "" {
      assert text[1..] == rest;
    } else {
      assert OneLine(line[1..]);
      SplitFirstLine(line[1..], rest);
      assert text[1..] == line[1..] + "\n" + rest;
      assert [line[0]] + line[1..] == line;
    }
  }

  /** Splitting what was joined gives the lines back, and one empty line for the newline at the end. */
  lemma {:induction false} SplitOfText(lines: seq<string>)
    requires AreLines(lines)
    ensures Split(Text(lines)) == lines + [""]
    decreases |lines|
  {
    if lines != [] {
      assert OneLine(lines[0]);
      assert forall i :: 0 <= i < |lines[1..]| ==> lines[1..][i] == lines[i + 1];
      SplitOfText(lines[1..]);
      SplitFirstLine(lines[0], Text(lines[1..]));
      assert [lines[0]] + (lines[1..] + [""]) == lines + [""];
    }
  }

  lemma {:induction false} TextAppend(a: seq<string>, b: seq<string>)
    ensures Text(a + b) == Text(a) + Text(b)
    decreases |a|
  {
    if a == [] {
      assert a + b == b;
    } else {
      TextAppend(a[1..], b);
      assert (a + b)[1..] == a[1..] + b;
    }
  }

  // ---------- words ----------

  /** `line.split()`: the longest stretches without white space. */
  function Words(line: string): (words: seq<string>)
    ensures line != "" && !IsSpace(line[0]) ==> words != []
  {
    if line == "" then []
    else if IsSpace(line[0]) then Words(line[1..])
    else if |line| == 1 || IsSpace(line[1]) then [[line[0]]] + Words(line[1..])
    else
      var rest := Words(line[1..]);
      [[line[0]] + rest[0]] + rest[1..]
  }

  predicate IsWord(s: string) {
    s != "" && forall i :: 0 <= i < |s| ==> !IsSpace(s[i])
  }

  /** Words are words: none is empty or has white space in it. */
  lemma {:induction false} WordsAreWords(line: string)
    ensures forall w :: w in Words(line) ==> IsWord(w)
    decreases |line|
  {
    if line != "" {
      WordsAreWords(line[1..]);
      if |line| > 1 && !IsSpace(line[0]) && !IsSpace(line[1]) {
        var rest := Words(line[1..]);
        assert rest[0] in rest;
      }
    }
  }

  lemma {:induction false} WordsCons(c: char, rest: string)
    ensures var words := Words(rest);
      Words([c] + rest)
      == if IsSpace(c) then words else if rest == "" || IsSpace(rest[0]) then [[c]] + words
         else [[c] + words[0]] + words[1..]
  {
    assert ([c] + rest)[1..] == rest;
  }

  /** White space separates: what is on both sides of it has words of its own. */
  lemma {:induction false} WordsConcat(a: string, c: char, b: string)
    requires IsSpace(c)
    ensures Words(a + [c] + b) == Words(a) + Words(b)
    decreases |a|
  {
    hide Words;
    if a == "" {
      WordsCons(c, b);
      NoWords();
      assert "" + [c] + b == [c] + b;
    } else {
      var rest := a[1..];
      WordsConcat(rest, c, b);
      WordsCons(a[0], rest);
      WordsCons(a[0], rest + [c] + b);
      assert [a[0]] + rest == a && [a[0]] + (rest + [c] + b) == a + [c] + b;
    }
  }

  lemma {:induction false} NoWords()
    ensures Words("") == []
  {
  }

  lemma {:induction false} WordsOfWord(word: string)
    requires IsWord(word)
    ensures Words(word) == [word]
    decreases |word|
  {
    if |word| > 1 {
      WordsOfWord(word[1..]);
      assert [word[0]] + word[1..] == word;
    } else {
      assert word[1..] == "" && [word[0]] == word;
    }
  }
}
