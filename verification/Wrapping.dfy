/** Greedy line breaking: nothing of a text is lost, no line is too wide, and no other
    breaking takes fewer lines. */

module Wrapping {
  /// Words and pieces

  /** The characters with the White_Space property. */
  predicate IsSpace(c: char) {
    ('\t' <= c <= '\r') || c == ' ' || c == '\U{0085}' || c == '\U{00A0}' || c == '\U{1680}'
    || ('\U{2000}' <= c <= '\U{200A}') || c == '\U{2028}' || c == '\U{2029}' || c == '\U{202F}'
    || c == '\U{205F}' || c == '\U{3000}'
  }

  function WordsAfter(word: string, text: string): seq<string>
    decreases |text|
  {
    if text == "" then Whole(word)
    else if IsSpace(text[0]) then Whole(word) + WordsAfter("", text[1..])
    else WordsAfter(word + [text[0]], text[1..])
  }

  function Whole(word: string): seq<string> {
    if word == "" then [] else [word]
  }

  /** The text split on runs of white space. */
  function Words(text: string): seq<string> {
    WordsAfter("", text)
  }

  function Chunks(word: string, wide: nat): seq<string>
    requires wide > 0
    decreases |word|
  {
    if word == "" then []
    else if |word| <= wide then [word]
    else [word[..wide]] + Chunks(word[wide..], wide)
  }

  /** Every word, cut where it is longer than a line. */
  function Pieces(words: seq<string>, wide: nat): seq<string>
    requires wide > 0
  {
    if words == [] then []
    else Pieces(words[..|words| - 1], wide) + Chunks(words[|words| - 1], wide)
  }

  function Concat(parts: seq<string>): string {
    if parts == [] then "" else Concat(parts[..|parts| - 1]) + parts[|parts| - 1]
  }

  /// What splitting and cutting mean

  predicate Spaces(s: string) {
    forall i :: 0 <= i < |s| ==> IsSpace(s[i])
  }

  predicate NoSpaces(s: string) {
    forall i :: 0 <= i < |s| ==> !IsSpace(s[i])
  }

  /** The words with a gap before each and one after the last. */
  function Woven(words: seq<string>, gaps: seq<string>): string
    requires |gaps| == |words| + 1
  {
    if words == [] then gaps[0] else gaps[0] + words[0] + Woven(words[1..], gaps[1..])
  }

  /** The text is these words in this order, none empty and no white space in any, with
      white space between each two, and perhaps before the first and after the last. */
  ghost predicate SplitBy(text: string, words: seq<string>, gaps: seq<string>) {
    && |gaps| == |words| + 1 && text == Woven(words, gaps)
    && (forall i :: 0 <= i < |words| ==> words[i] != "" && NoSpaces(words[i]))
    && (forall i :: 0 <= i < |gaps| ==> Spaces(gaps[i]))
    && (forall i :: 0 < i < |words| ==> gaps[i] != "")
  }

  ghost predicate IsSplit(text: string, words: seq<string>) {
    exists gaps :: SplitBy(text, words, gaps)
  }

  lemma {:induction false} SplitAfter(word: string, text: string) returns (gaps: seq<string>)
    requires NoSpaces(word)
    ensures SplitBy(word + text, WordsAfter(word, text), gaps)
    ensures word != "" ==> gaps[0] == ""
    decreases |text|
  {
    if text == "" {
      gaps := if word == "" then [""] else ["", ""];
    } else if IsSpace(text[0]) {
      gaps := SplitAfter("", text[1..]);
      assert "" + text[1..] == text[1..];
      gaps := AfterSpace(word, text, WordsAfter("", text[1..]), gaps);
    } else {
      gaps := SplitAfter(word + [text[0]], text[1..]);
      assert word + [text[0]] + text[1..] == word + text;
    }
  }

  /** White space ends a word, or makes the gap before the next one longer. */
  lemma AfterSpace(word: string, text: string, words: seq<string>, gaps: seq<string>) returns (all: seq<string>)
    requires NoSpaces(word) && text != "" && IsSpace(text[0]) && SplitBy(text[1..], words, gaps)
    ensures SplitBy(word + text, Whole(word) + words, all)
    ensures word != "" ==> all[0] == ""
  {
    var wider := [[text[0]] + gaps[0]] + gaps[1..];
    assert Woven(words, wider) == text by {
      assert wider[1..] == gaps[1..];
      assert text == [text[0]] + text[1..];
    }
    if word == "" {
      all := wider;
      assert Whole(word) + words == words && word + text == text;
    } else {
      all := [""] + wider;
      assert ([word] + words)[1..] == words && all[1..] == wider;
    }
  }

  /** The program's words are the words of the text. */
  lemma WordsAreSplit(text: string)
    ensures IsSplit(text, Words(text))
  {
    var gaps := SplitAfter("", text);
    assert "" + text == text;
  }

  /** A word no longer than a line is one piece; a longer one is pieces as wide as the
      line, but for the last. */
  ghost predicate CutBy(word: string, pieces: seq<string>, wide: nat) {
    && Concat(pieces) == word
    && (0 < |word| <= wide ==> pieces == [word])
    && (forall i :: 0 <= i < |pieces| ==> 0 < |pieces[i]| <= wide && (i < |pieces| - 1 ==> |pieces[i]| == wide))
  }

  /** Each word cut, one after the other. */
  ghost predicate CutAllBy(words: seq<string>, cuts: seq<seq<string>>, pieces: seq<string>, wide: nat) {
    && |cuts| == |words| && pieces == Flat(cuts)
    && forall i :: 0 <= i < |words| ==> CutBy(words[i], cuts[i], wide)
  }

  ghost predicate IsCut(words: seq<string>, pieces: seq<string>, wide: nat) {
    exists cuts :: CutAllBy(words, cuts, pieces, wide)
  }

  lemma {:induction false} ChunksAreCut(word: string, wide: nat)
    requires wide > 0
    ensures CutBy(word, Chunks(word, wide), wide)
    decreases |word|
  {
    ChunksAreTheWord(word, wide);
    if |word| > wide {
      ChunksAreCut(word[wide..], wide);
    }
  }

  lemma {:induction false} PiecesAreCut(words: seq<string>, wide: nat) returns (cuts: seq<seq<string>>)
    requires wide > 0
    ensures CutAllBy(words, cuts, Pieces(words, wide), wide)
  {
    if words == [] {
      cuts := [];
    } else {
      var n := |words| - 1;
      var before := PiecesAreCut(words[..n], wide);
      ChunksAreCut(words[n], wide);
      cuts := before + [Chunks(words[n], wide)];
      assert cuts[..n] == before;
    }
  }

  /** What is left of a text without its white space. */
  function Solid(text: string): string {
    if text == "" then ""
    else Solid(text[..|text| - 1]) + if IsSpace(text[|text| - 1]) then "" else [text[|text| - 1]]
  }

  /// Packings

  function Joined(group: seq<string>): string {
    if group == [] then ""
    else if |group| == 1 then group[0]
    else Joined(group[..|group| - 1]) + " " + group[|group| - 1]
  }

  function Flat(packing: seq<seq<string>>): seq<string> {
    if packing == [] then [] else Flat(packing[..|packing| - 1]) + packing[|packing| - 1]
  }

  /** Lines of pieces, none of them empty or too wide. */
  ghost predicate Fits(packing: seq<seq<string>>, wide: nat) {
    forall i :: 0 <= i < |packing| ==> packing[i] != [] && |Joined(packing[i])| <= wide
  }

  function LastWidth(packing: seq<seq<string>>): nat {
    if packing == [] then 0 else |Joined(packing[|packing| - 1])|
  }

  /** No packing of the same pieces, in the same order, is shorter; and none as short
      has a shorter last line. */
  ghost predicate Best(packing: seq<seq<string>>, wide: nat) {
    forall other :: Fits(other, wide) && Flat(other) == Flat(packing) ==>
      |packing| < |other| || (|packing| == |other| && LastWidth(packing) <= LastWidth(other))
  }

  /** The greedy step: onto the last line where there is room, or onto a new one. */
  function Packed(packing: seq<seq<string>>, piece: string, wide: nat): seq<seq<string>> {
    var last := |packing| - 1;
    if packing != [] && LastWidth(packing) + 1 + |piece| <= wide
    then packing[last := packing[last] + [piece]]
    else packing + [[piece]]
  }

  lemma JoinedSnoc(group: seq<string>, piece: string)
    requires group != []
    ensures Joined(group + [piece]) == Joined(group) + " " + piece
  {
  }

  lemma PackedHolds(packing: seq<seq<string>>, piece: string, wide: nat)
    requires Fits(packing, wide) && |piece| <= wide
    ensures var p := Packed(packing, piece, wide);
            Fits(p, wide) && Flat(p) == Flat(packing) + [piece] && p != []
  {
    var p := Packed(packing, piece, wide);
    var last := |packing| - 1;
    if |p| == |packing| {
      JoinedSnoc(packing[last], piece);
      assert p[..last] == packing[..last];
    } else {
      assert p[..|packing|] == packing;
    }
  }

  /** Any packing ending in a piece is one of what comes before it, with the piece put
      on the last line or on a new one. */
  lemma BeforeLast(other: seq<seq<string>>, pieces: seq<string>, piece: string, wide: nat)
    returns (before: seq<seq<string>>)
    requires Fits(other, wide) && Flat(other) == pieces + [piece]
    ensures other != [] && Fits(before, wide) && Flat(before) == pieces
    ensures var last := other[|other| - 1];
            if |last| == 1 then |other| == |before| + 1 && LastWidth(other) == |piece|
            else |other| == |before| && LastWidth(other) == LastWidth(before) + 1 + |piece| && before != []
    ensures |piece| <= LastWidth(other) <= wide
  {
    assert other != [];
    var n := |other| - 1;
    var last := other[n];
    var flat := Flat(other[..n]);
    assert Flat(other) == flat + last;
    assert last[|last| - 1] == piece by {
      assert (flat + last)[|flat| + |last| - 1] == (pieces + [piece])[|pieces|];
    }
    if |last| == 1 {
      before := other[..n];
      assert pieces == (flat + last)[..|pieces|] == flat;
    } else {
      var rest := last[..|last| - 1];
      before := other[..n] + [rest];
      assert last == rest + [piece];
      JoinedSnoc(rest, piece);
      assert before[..n] == other[..n];
      assert pieces == (flat + last)[..|pieces|] == flat + rest;
    }
  }

  lemma BestAgainst(packing: seq<seq<string>>, other: seq<seq<string>>, wide: nat)
    requires Best(packing, wide) && Fits(other, wide) && Flat(other) == Flat(packing)
    ensures |packing| < |other| || (|packing| == |other| && LastWidth(packing) <= LastWidth(other))
  {
  }

  /** How a piece more tells on the lines and on the last line's width. */
  lemma PackedMeasures(packing: seq<seq<string>>, piece: string, wide: nat)
    requires Fits(packing, wide) && |piece| <= wide
    ensures var p := Packed(packing, piece, wide);
            if packing != [] && LastWidth(packing) + 1 + |piece| <= wide
            then |p| == |packing| && LastWidth(p) == LastWidth(packing) + 1 + |piece|
            else |p| == |packing| + 1 && LastWidth(p) == |piece|
  {
  }

  lemma AheadOf(packing: seq<seq<string>>, piece: string, wide: nat, other: seq<seq<string>>)
    requires Fits(packing, wide) && Best(packing, wide) && |piece| <= wide
    requires Fits(other, wide) && Flat(other) == Flat(packing) + [piece]
    ensures var p := Packed(packing, piece, wide);
            |p| < |other| || (|p| == |other| && LastWidth(p) <= LastWidth(other))
  {
    var before := BeforeLast(other, Flat(packing), piece, wide);
    BestAgainst(packing, before, wide);
    PackedMeasures(packing, piece, wide);
  }

  /** Greedy stays ahead. */
  lemma PackedIsBest(packing: seq<seq<string>>, piece: string, wide: nat)
    requires Fits(packing, wide) && Best(packing, wide) && |piece| <= wide
    ensures Best(Packed(packing, piece, wide), wide)
  {
    var p := Packed(packing, piece, wide);
    PackedHolds(packing, piece, wide);
    forall other | Fits(other, wide) && Flat(other) == Flat(p)
      ensures |p| < |other| || (|p| == |other| && LastWidth(p) <= LastWidth(other))
    {
      AheadOf(packing, piece, wide, other);
    }
  }

  /** The greedy packing of some pieces. */
  function Greedy(pieces: seq<string>, wide: nat): seq<seq<string>> {
    if pieces == [] then []
    else Packed(Greedy(pieces[..|pieces| - 1], wide), pieces[|pieces| - 1], wide)
  }

  ghost predicate FitPieces(pieces: seq<string>, wide: nat) {
    forall p :: p in pieces ==> 0 < |p| <= wide
  }

  lemma GreedySnoc(pieces: seq<string>, piece: string, wide: nat)
    ensures Greedy(pieces + [piece], wide) == Packed(Greedy(pieces, wide), piece, wide)
  {
  }

  /** The greedy packing holds the pieces, in order, in lines that fit. */
  lemma {:induction false} GreedyHolds(pieces: seq<string>, wide: nat)
    requires FitPieces(pieces, wide)
    ensures Fits(Greedy(pieces, wide), wide) && Flat(Greedy(pieces, wide)) == pieces
  {
    if pieces != [] {
      var before, last := pieces[..|pieces| - 1], pieces[|pieces| - 1];
      assert pieces == before + [last];
      GreedyHolds(before, wide);
      PackedHolds(Greedy(before, wide), last, wide);
    }
  }

  /** It has as few lines as any packing can. */
  lemma {:induction false} GreedyIsBest(pieces: seq<string>, wide: nat)
    requires FitPieces(pieces, wide)
    ensures Best(Greedy(pieces, wide), wide)
  {
    if pieces != [] {
      var before, last := pieces[..|pieces| - 1], pieces[|pieces| - 1];
      assert FitPieces(before, wide) && last in pieces;
      GreedyHolds(before, wide);
      GreedyIsBest(before, wide);
      PackedIsBest(Greedy(before, wide), last, wide);
      GreedyUnfolds(pieces, wide);
    }
  }

  lemma GreedyUnfolds(pieces: seq<string>, wide: nat)
    requires pieces != []
    ensures Greedy(pieces, wide) == Packed(Greedy(pieces[..|pieces| - 1], wide), pieces[|pieces| - 1], wide)
  {
  }

  /// The program

  datatype PanelLine = PanelLine(text: string, dimmed: bool)

  /** What the lines drawn so far and the one being filled say of the packing. */
  ghost predicate Shows(out: seq<PanelLine>, line: string, packing: seq<seq<string>>, dimmed: bool) {
    && (forall i :: 0 <= i < |packing| ==> packing[i] != [] && Joined(packing[i]) != "")
    && if packing == [] then out == [] && line == ""
       else
         && |out| == |packing| - 1
         && line == Joined(packing[|packing| - 1])
         && forall i :: 0 <= i < |out| ==> out[i] == PanelLine(Joined(packing[i]), dimmed)
  }

  lemma ShowsOnLast(out: seq<PanelLine>, line: string, packing: seq<seq<string>>, dimmed: bool, piece: string)
    requires Shows(out, line, packing, dimmed) && packing != []
    ensures var last := |packing| - 1;
            Shows(out, line + " " + piece, packing[last := packing[last] + [piece]], dimmed)
  {
  }

  lemma ShowsOnNew(out: seq<PanelLine>, line: string, packing: seq<seq<string>>, dimmed: bool, piece: string)
    requires Shows(out, line, packing, dimmed) && piece != ""
    ensures Shows(if packing == [] then out else out + [PanelLine(line, dimmed)], piece, packing + [[piece]], dimmed)
  {
  }

  lemma LineIsLast(out: seq<PanelLine>, line: string, packing: seq<seq<string>>, dimmed: bool)
    requires Shows(out, line, packing, dimmed)
    ensures |line| == LastWidth(packing) && (|line| == 0 <==> packing == [])
  {
  }

  method PutPiece(out: seq<PanelLine>, line: string, piece: string, wide: nat, dimmed: bool,
                  ghost packing: seq<seq<string>>)
    returns (more: seq<PanelLine>, filled: string)
    requires Shows(out, line, packing, dimmed) && piece != ""
    ensures Shows(more, filled, Packed(packing, piece, wide), dimmed)
  {
    LineIsLast(out, line, packing, dimmed);
    more, filled := out, line;
    var room := |line| == 0 || |line| + 1 + |piece| <= wide;
    if !room {
      more := more + [PanelLine(filled, dimmed)];
      filled := "";
    }
    if |filled| > 0 {
      filled := filled + " ";
      ShowsOnLast(out, line, packing, dimmed, piece);
    } else {
      ShowsOnNew(out, line, packing, dimmed, piece);
    }
    filled := filled + piece;
  }

  lemma OneFurther<T>(a: seq<T>, b: seq<T>, c: nat)
    requires c < |b|
    ensures a + b[..c] + [b[c]] == a + b[..c + 1]
  {
  }

  method PutWord(chunks: seq<string>, before: seq<PanelLine>, begun: string, wide: nat, dimmed: bool,
                 ghost pieces: seq<string>)
    returns (out: seq<PanelLine>, line: string)
    requires Shows(before, begun, Greedy(pieces, wide), dimmed) && FitPieces(chunks, wide)
    ensures Shows(out, line, Greedy(pieces + chunks, wide), dimmed)
  {
    out, line := before, begun;
    ghost var so, packing := pieces, Greedy(pieces, wide);
    assert pieces + chunks[..0] == pieces;
    for c := 0 to |chunks|
      invariant so == pieces + chunks[..c] && packing == Greedy(so, wide)
      invariant Shows(out, line, packing, dimmed)
    {
      assert chunks[c] != "";
      out, line := PutPiece(out, line, chunks[c], wide, dimmed, packing);
      GreedySnoc(so, chunks[c], wide);
      OneFurther(pieces, chunks, c);
      so, packing := so + [chunks[c]], Packed(packing, chunks[c], wide);
    }
    assert so == pieces + chunks;
  }

  /** Every piece of every word is on some line, in order; no line is too wide; and no
      other way of breaking the same pieces into lines takes fewer. A text of nothing
      but white space is one empty line. */
  method Wrapped(text: string, width: nat, dimmed: bool) returns (out: seq<PanelLine>)
    ensures var wide := if width < 8 then 8 else width;
            var packing := Greedy(Pieces(Words(text), wide), wide);
            && IsSplit(text, Words(text)) && IsCut(Words(text), Pieces(Words(text), wide), wide)
            && Flat(packing) == Pieces(Words(text), wide)
            && Fits(packing, wide) && Best(packing, wide)
            && if packing == [] then out == [PanelLine("", dimmed)]
               else |out| == |packing|
                    && forall i :: 0 <= i < |out| ==> out[i] == PanelLine(Joined(packing[i]), dimmed)
  {
    var wide := if width < 8 then 8 else width;
    out := Lines(text, wide, dimmed);
    WordsAreSplit(text);
    ghost var cuts := PiecesAreCut(Words(text), wide);
    PiecesFit(Words(text), wide);
    GreedyHolds(Pieces(Words(text), wide), wide);
    GreedyIsBest(Pieces(Words(text), wide), wide);
  }

  method Lines(text: string, wide: nat, dimmed: bool) returns (out: seq<PanelLine>)
    requires wide > 0
    ensures var packing := Greedy(Pieces(Words(text), wide), wide);
            if packing == [] then out == [PanelLine("", dimmed)]
            else |out| == |packing|
                 && forall i :: 0 <= i < |out| ==> out[i] == PanelLine(Joined(packing[i]), dimmed)
  {
    var words := Words(text);
    out := [];
    var line := "";
    for w := 0 to |words|
      invariant Shows(out, line, Greedy(Pieces(words[..w], wide), wide), dimmed)
    {
      var chunks := Chunks(words[w], wide);
      ChunksFit(words[w], wide);
      out, line := PutWord(chunks, out, line, wide, dimmed, Pieces(words[..w], wide));
      assert words[..w + 1][..w] == words[..w];
    }
    assert words[..|words|] == words;
    if line != "" || out == [] {
      out := out + [PanelLine(line, dimmed)];
    }
  }

  /// Nothing is lost

  lemma {:induction false} ChunksFit(word: string, wide: nat)
    requires wide > 0
    ensures FitPieces(Chunks(word, wide), wide)
    decreases |word|
  {
    if |word| > wide {
      ChunksFit(word[wide..], wide);
    }
  }

  lemma {:induction false} PiecesFit(words: seq<string>, wide: nat)
    requires wide > 0
    ensures FitPieces(Pieces(words, wide), wide)
  {
    if words != [] {
      PiecesFit(words[..|words| - 1], wide);
      ChunksFit(words[|words| - 1], wide);
    }
  }

  lemma {:induction false} ConcatJoins(a: seq<string>, b: seq<string>)
    ensures Concat(a + b) == Concat(a) + Concat(b)
    decreases |b|
  {
    if b == [] {
      assert a + b == a;
    } else {
      assert (a + b)[..|a + b| - 1] == a + b[..|b| - 1];
      ConcatJoins(a, b[..|b| - 1]);
    }
  }

  lemma ConcatOne(part: string)
    ensures Concat([part]) == part
  {
  }

  lemma {:induction false} ChunksAreTheWord(word: string, wide: nat)
    requires wide > 0
    ensures Concat(Chunks(word, wide)) == word
    decreases |word|
  {
    if word != "" {
      if |word| <= wide {
        ConcatOne(word);
      } else {
        var head, tail := word[..wide], word[wide..];
        ChunksAreTheWord(tail, wide);
        ConcatJoins([head], Chunks(tail, wide));
        ConcatOne(head);
        assert word == head + tail;
      }
    }
  }

  lemma {:induction false} PiecesAreTheWords(words: seq<string>, wide: nat)
    requires wide > 0
    ensures Concat(Pieces(words, wide)) == Concat(words)
  {
    if words != [] {
      var n := |words| - 1;
      PiecesAreTheWords(words[..n], wide);
      ChunksAreTheWord(words[n], wide);
      ConcatJoins(Pieces(words[..n], wide), Chunks(words[n], wide));
    }
  }

  lemma {:induction false} SolidJoins(a: string, b: string)
    ensures Solid(a + b) == Solid(a) + Solid(b)
    decreases |b|
  {
    if b == "" {
      assert a + b == a;
    } else {
      assert (a + b)[..|a + b| - 1] == a + b[..|b| - 1];
      SolidJoins(a, b[..|b| - 1]);
    }
  }

  /** The words are all of the text but its white space, and hold none. */
  lemma {:induction false} WordsAreTheText(word: string, text: string)
    requires Solid(word) == word
    ensures Concat(WordsAfter(word, text)) == word + Solid(text)
    decreases |text|
  {
    if text == "" {
      ConcatWhole(word);
    } else if IsSpace(text[0]) {
      WordsAreTheText("", text[1..]);
      SolidOfFirst(text);
      WholeThen(word, WordsAfter("", text[1..]));
    } else {
      var longer := word + [text[0]];
      SolidOneMore(word, text[0]);
      WordsAreTheText(longer, text[1..]);
      SolidOfFirst(text);
      assert longer + Solid(text[1..]) == word + ([text[0]] + Solid(text[1..]));
    }
  }

  lemma ConcatWhole(word: string)
    ensures Concat(Whole(word)) == word
  {
  }

  lemma WholeThen(word: string, rest: seq<string>)
    ensures Concat(Whole(word) + rest) == word + Concat(rest)
  {
    ConcatWhole(word);
    ConcatJoins(Whole(word), rest);
  }

  lemma SolidOneMore(word: string, c: char)
    requires Solid(word) == word && !IsSpace(c)
    ensures Solid(word + [c]) == word + [c]
  {
  }

  lemma SolidOfFirst(text: string)
    requires text != ""
    ensures Solid(text) == (if IsSpace(text[0]) then "" else [text[0]]) + Solid(text[1..])
  {
    var first := [text[0]];
    assert text == first + text[1..];
    SolidJoins(first, text[1..]);
    assert first[..0] == "";
  }

  /** What a packing of the pieces puts on its lines is the text itself, white space
      aside: nothing is dropped, doubled or moved. */
  lemma NothingIsLost(text: string, wide: nat, packing: seq<seq<string>>)
    requires wide > 0 && Flat(packing) == Pieces(Words(text), wide)
    ensures Concat(Flat(packing)) == Solid(text)
  {
    PiecesAreTheWords(Words(text), wide);
    WordsAreTheText("", text);
  }
}
