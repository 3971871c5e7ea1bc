/**
 * `formatText` of about.tsx and services.tsx (the two are the same code):
 * greedy word wrap for the page texts. The text is split at single
 * spaces; each word is appended, with a space after it, to the current
 * line unless the current line plus the word would be longer than the
 * limit, in which case the current line is emitted first (trimmed, with a
 * line break) and the word starts the next one. The last line is emitted
 * without a break.
 */
module WordWrap {
  import opened JsString

  /**
   * One emitted `<span>`: its React key, the current line it was made of,
   * and whether a `<br />` follows. The span shows the line trimmed.
   */
  datatype Line = Line(key: nat, raw: string, lineBreak: bool)
  {
    function Text(): string
    {
      Trim(raw)
    }
  }

  /** A flushed line: the index of the word that flushed it, and its words. */
  datatype Chunk = Chunk(key: nat, words: seq<string>)

  /** The raw text of a line: every word followed by a space. */
  function LineText(words: seq<string>): (s: string)
    ensures words != [] ==> s != [] && s[|s| - 1] == ' '
  {
    if words == [] then "" else LineText(words[..|words| - 1]) + words[|words| - 1] + " "
  }

  /**
   * The wrap as a fold over the words: the lines flushed so far and the
   * words of the current line.
   */
  function Wrap(words: seq<string>, maxLength: int): (r: (seq<Chunk>, seq<string>))
  {
    if words == [] then ([], [])
    else Step(Wrap(words[..|words| - 1], maxLength), words[|words| - 1], |words| - 1, maxLength)
  }

  /**
   * One word of the loop: the current line is flushed first when the word
   * would take it over the limit, then the word joins the current line.
   */
  function Step(state: (seq<Chunk>, seq<string>), word: string, key: nat, maxLength: int): (seq<Chunk>, seq<string>)
  {
    var (done, current) := state;
    if |LineText(current) + word| > maxLength then (done + [Chunk(key, current)], [word])
    else (done, current + [word])
  }

  function Flatten(chunks: seq<Chunk>): seq<string>
  {
    if chunks == [] then [] else Flatten(chunks[..|chunks| - 1]) + chunks[|chunks| - 1].words
  }

  /** A flushed line as rendered: followed by a line break. */
  function RenderChunk(c: Chunk): Line
  {
    Line(c.key, LineText(c.words), true)
  }

  function Render(chunks: seq<Chunk>): (lines: seq<Line>)
    ensures |lines| == |chunks|
    ensures forall i :: 0 <= i < |chunks| ==> lines[i] == RenderChunk(chunks[i])
  {
    if chunks == [] then [] else Render(chunks[..|chunks| - 1]) + [RenderChunk(chunks[|chunks| - 1])]
  }

  /**
   * `formatText`: the words' loop. The lines it returns are the flushed
   * lines of the fold followed by the last line, and there is always a
   * last line, because `split` yields at least one word and each word
   * leaves a space in the current line.
   */
  method FormatText(text: string, maxLength: int) returns (lines: seq<Line>)
    ensures var words := Split(text, ' ');
      var (done, current) := Wrap(words, maxLength);
      && current != []
      && lines == Render(done) + [Line(|words|, LineText(current), false)]
  {
    var words := Split(text, ' ');
    var formattedLines: seq<Line> := [];
    var currentLine := "";
    ghost var done: seq<Chunk> := [];
    ghost var current: seq<string> := [];
    var index := 0;
    while index < |words|
      invariant 0 <= index <= |words|
      invariant Wrap(words[..index], maxLength) == (done, current)
      invariant formattedLines == Render(done)
      invariant currentLine == LineText(current)
      invariant index > 0 ==> current != []
    {
      var word := words[index];
      WrapStep(words, index, maxLength);
      if |currentLine + word| > maxLength {
        RenderSnoc(done, Chunk(index, current));
        formattedLines := formattedLines + [Line(index, currentLine, true)];
        done := done + [Chunk(index, current)];
        currentLine := word + " ";
        current := [word];
      } else {
        currentLine := currentLine + word + " ";
        current := current + [word];
      }
      index := index + 1;
    }
    assert words[..index] == words;
    if currentLine != "" {
      formattedLines := formattedLines + [Line(|words|, currentLine, false)];
    }
    lines := formattedLines;
  }

  /** One step of the fold, and what it does to the current line's text. */
  lemma WrapStep(words: seq<string>, i: nat, maxLength: int)
    requires i < |words|
    ensures var (done, current) := Wrap(words[..i], maxLength);
      && LineText([words[i]]) == words[i] + " "
      && LineText(current + [words[i]]) == LineText(current) + words[i] + " "
      && Wrap(words[..i + 1], maxLength) ==
        if |LineText(current) + words[i]| > maxLength then (done + [Chunk(i, current)], [words[i]])
        else (done, current + [words[i]])
  {
    assert words[..i + 1][..i] == words[..i];
    assert [words[i]][..0] == [];
    var (done, current) := Wrap(words[..i], maxLength);
    assert (current + [words[i]])[..|current|] == current;
  }

  lemma RenderSnoc(chunks: seq<Chunk>, c: Chunk)
    ensures Render(chunks + [c]) == Render(chunks) + [RenderChunk(c)]
  {
    assert (chunks + [c])[..|chunks|] == chunks;
  }

  lemma FlattenSnoc(chunks: seq<Chunk>, c: Chunk)
    ensures Flatten(chunks + [c]) == Flatten(chunks) + c.words
  {
    assert (chunks + [c])[..|chunks|] == chunks;
  }

  /** No word is lost, added or reordered: the lines hold exactly the words, in order. */
  lemma {:induction false} WrapKeepsWords(words: seq<string>, maxLength: int)
    ensures Flatten(Wrap(words, maxLength).0) + Wrap(words, maxLength).1 == words
  {
    if words != [] {
      var i := |words| - 1;
      WrapKeepsWords(words[..i], maxLength);
      var r := Wrap(words[..i], maxLength);
      KeepsWordsStep(r.0, r.1, words, i);
      if |LineText(r.1) + words[i]| > maxLength {
        assert Wrap(words, maxLength) == (r.0 + [Chunk(i, r.1)], [words[i]]);
      } else {
        assert Wrap(words, maxLength) == (r.0, r.1 + [words[i]]);
      }
    }
  }

  /** Flushing the current line or extending it keeps the words in order. */
  lemma KeepsWordsStep(done: seq<Chunk>, current: seq<string>, words: seq<string>, i: nat)
    requires i < |words| && Flatten(done) + current == words[..i]
    ensures Flatten(done + [Chunk(i, current)]) + [words[i]] == words[..i + 1]
    ensures Flatten(done) + (current + [words[i]]) == words[..i + 1]
  {
    FlattenSnoc(done, Chunk(i, current));
    assert words[..i + 1] == words[..i] + [words[i]];
  }

  /** A line of two or more words ends, before its trailing space, within the limit. */
  predicate Fits(words: seq<string>, maxLength: int)
  {
    |words| >= 2 ==> |LineText(words)| <= maxLength + 1
  }

  /** Every line of the fold, flushed or current, fits unless it is a single word. */
  lemma {:induction false} WrapLinesFit(words: seq<string>, maxLength: int)
    ensures var (done, current) := Wrap(words, maxLength);
      && (forall i :: 0 <= i < |done| ==> Fits(done[i].words, maxLength))
      && Fits(current, maxLength)
  {
    if words != [] {
      var front := words[..|words| - 1];
      WrapLinesFit(front, maxLength);
      var (done, current) := Wrap(front, maxLength);
      var word := words[|words| - 1];
      if |LineText(current) + word| <= maxLength {
        var next := current + [word];
        assert next[..|next| - 1] == current;
        assert |LineText(next)| == |LineText(current)| + |word| + 1;
      }
    }
  }

  /**
   * An emitted line longer than the limit holds a single word (or none):
   * a line of several words fits within the limit once trimmed.
   */
  lemma LongLineIsOneWord(words: seq<string>, maxLength: int)
    requires Fits(words, maxLength)
    requires |Trim(LineText(words))| > maxLength
    ensures |words| <= 1
  {
  }

  /** Every flushed line except possibly the first holds at least one word. */
  lemma {:induction false} OnlyFirstLineEmpty(words: seq<string>, maxLength: int)
    ensures var (done, current) := Wrap(words, maxLength);
      && (words != [] ==> current != [])
      && forall i :: 0 < i < |done| ==> done[i].words != []
  {
    if words != [] {
      OnlyFirstLineEmpty(words[..|words| - 1], maxLength);
    }
  }

  /**
   * When the first word alone is over the limit, the empty current line is
   * flushed first: the first emitted line is empty.
   */
  lemma {:induction false} FirstWordTooLong(words: seq<string>, maxLength: int)
    requires words != [] && |words[0]| > maxLength
    ensures var (done, current) := Wrap(words, maxLength);
      |done| >= 1 && done[0] == Chunk(0, [])
      && Render(done)[0].Text() == ""
  {
    if |words| == 1 {
      assert words[..0] == [];
    } else {
      var front := words[..|words| - 1];
      assert front[0] == words[0];
      FirstWordTooLong(front, maxLength);
    }
  }

  /**
   * The key of every flushed line is the index of the word that flushed
   * it, which is the number of words on the lines up to and including it.
   */
  predicate KeysCountWords(done: seq<Chunk>, n: nat)
  {
    forall i :: 0 <= i < |done| ==> done[i].key < n && |Flatten(done[..i + 1])| == done[i].key
  }

  lemma {:induction false} WrapKeys(words: seq<string>, maxLength: int)
    ensures KeysCountWords(Wrap(words, maxLength).0, |words|)
  {
    if words != [] {
      var i := |words| - 1;
      WrapKeys(words[..i], maxLength);
      WrapKeepsWords(words[..i], maxLength);
      var r := Wrap(words[..i], maxLength);
      if |LineText(r.1) + words[i]| > maxLength {
        assert Wrap(words, maxLength).0 == r.0 + [Chunk(i, r.1)];
        KeysStep(r.0, r.1, i);
      } else {
        assert Wrap(words, maxLength).0 == r.0;
      }
    }
  }

  /** Flushing a line whose words end at word `key` keeps every key counting words. */
  lemma KeysStep(done: seq<Chunk>, current: seq<string>, key: nat)
    requires KeysCountWords(done, key)
    requires |Flatten(done) + current| == key
    ensures KeysCountWords(done + [Chunk(key, current)], key + 1)
  {
    var done' := done + [Chunk(key, current)];
    forall i | 0 <= i < |done'|
      ensures done'[i].key < key + 1 && |Flatten(done'[..i + 1])| == done'[i].key
    {
      if i < |done| {
        assert done'[..i + 1] == done[..i + 1];
      } else {
        assert done'[..i + 1] == done + [Chunk(key, current)];
        FlattenSnoc(done, Chunk(key, current));
      }
    }
  }
}
