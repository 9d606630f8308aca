/** The Anki export (lib/export_anki.py): flashcards for import, one per
    answered quiz question and one per complete flashcard, tagged with the
    notebook's title. */
module ExportAnki {
  import opened Wrappers
  import opened Strings
  import opened Seqs

  /** An entry of a quiz file's `questions` list; a missing key is `None`. */
  datatype QuizEntry = QuizEntry(question: Option<string>, answer: Option<string>)

  /** An entry of a flashcard file's `cards` list. */
  datatype CardEntry = CardEntry(front: Option<string>, back: Option<string>)

  /** One row of the CSV. */
  datatype Card = Card(front: string, back: string, tags: string)

  /** Lines 23-24: the title, `NotebookLM` when missing, with every space
      read as `_`. */
  function Tag(title: Option<string>): string {
    ReplaceAll(title.GetOr("NotebookLM"), " ", "_")
  }

  /** Line 39: a question becomes a card when both texts are non-empty. */
  predicate QuizQualifies(e: QuizEntry) {
    e.question.GetOr("") != "" && e.answer.GetOr("") != ""
  }

  /** Line 57: likewise for a flashcard. */
  predicate FlashQualifies(e: CardEntry) {
    e.front.GetOr("") != "" && e.back.GetOr("") != ""
  }

  /** Lines 40-44. */
  function QuizCard(tag: string): QuizEntry -> Card {
    (e: QuizEntry) => Card(e.question.GetOr(""), e.answer.GetOr(""), tag + " quiz")
  }

  /** Lines 58-62. */
  function FlashCard(tag: string): CardEntry -> Card {
    (e: CardEntry) => Card(e.front.GetOr(""), e.back.GetOr(""), tag + " flashcard")
  }

  /** Lines 36-44: the card of one question, if any. */
  function QuizEntryCards(tag: string): QuizEntry -> seq<Card> {
    (e: QuizEntry) => if QuizQualifies(e) then [QuizCard(tag)(e)] else []
  }

  /** Lines 54-62: the card of one flashcard, if any. */
  function FlashEntryCards(tag: string): CardEntry -> seq<Card> {
    (e: CardEntry) => if FlashQualifies(e) then [FlashCard(tag)(e)] else []
  }

  /** Lines 23-62: the cards, quiz files first, then flashcard files, each
      file's entries in order. Each file is given by its list of entries,
      in the order the directory listing yields the files. */
  function AnkiCards(title: Option<string>, quizFiles: seq<seq<QuizEntry>>,
                     flashcardFiles: seq<seq<CardEntry>>): seq<Card> {
    FlatMap(Lifted(QuizEntryCards(Tag(title))), quizFiles)
      + FlatMap(Lifted(FlashEntryCards(Tag(title))), flashcardFiles)
  }

  /** Line 67: the CSV's columns. */
  const Header: seq<string> := ["Front", "Back", "Tags"]

  function CardRow(c: Card): seq<string> {
    [c.front, c.back, c.tags]
  }

  /** Lines 66-69: the header row, then one row per card. */
  function CsvRows(cards: seq<Card>): seq<seq<string>> {
    [Header] + Map(CardRow, cards)
  }

  // ---------------------------------------------------------------------
  // Building the cards
  // ---------------------------------------------------------------------

  /** Lines 35-44: the cards of one quiz file. */
  method AppendQuizCards(cards: seq<Card>, tag: string, questions: seq<QuizEntry>) returns (r: seq<Card>)
    ensures r == cards + FlatMap(QuizEntryCards(tag), questions)
  {
    r := cards;
    for j := 0 to |questions|
      invariant r == cards + FlatMap(QuizEntryCards(tag), questions[..j])
    {
      assert questions[..j + 1][..j] == questions[..j];
      assert questions[..j + 1][j] == questions[j];
      var q := questions[j];
      var question := q.question.GetOr("");
      var answer := q.answer.GetOr("");
      assert QuizCard(tag)(q) == Card(question, answer, tag + " quiz");
      assert QuizEntryCards(tag)(q) == if QuizQualifies(q) then [QuizCard(tag)(q)] else [];
      if question != "" && answer != "" {
        r := r + [Card(question, answer, tag + " quiz")];
      }
    }
    assert questions[..|questions|] == questions;
  }

  /** Lines 53-62: the cards of one flashcard file. */
  method AppendFlashCards(cards: seq<Card>, tag: string, entries: seq<CardEntry>) returns (r: seq<Card>)
    ensures r == cards + FlatMap(FlashEntryCards(tag), entries)
  {
    r := cards;
    for j := 0 to |entries|
      invariant r == cards + FlatMap(FlashEntryCards(tag), entries[..j])
    {
      assert entries[..j + 1][..j] == entries[..j];
      assert entries[..j + 1][j] == entries[j];
      var card := entries[j];
      var front := card.front.GetOr("");
      var back := card.back.GetOr("");
      assert FlashCard(tag)(card) == Card(front, back, tag + " flashcard");
      assert FlashEntryCards(tag)(card) == if FlashQualifies(card) then [FlashCard(tag)(card)] else [];
      if front != "" && back != "" {
        r := r + [Card(front, back, tag + " flashcard")];
      }
    }
    assert entries[..|entries|] == entries;
  }

  /** Lines 29-44: the cards of the quiz files, in order. */
  method AppendQuizFiles(cards: seq<Card>, tag: string, quizFiles: seq<seq<QuizEntry>>) returns (r: seq<Card>)
    ensures r == cards + FlatMap(Lifted(QuizEntryCards(tag)), quizFiles)
  {
    r := cards;
    for i := 0 to |quizFiles|
      invariant r == cards + FlatMap(Lifted(QuizEntryCards(tag)), quizFiles[..i])
    {
      assert quizFiles[..i + 1][..i] == quizFiles[..i];
      assert quizFiles[..i + 1][i] == quizFiles[i];
      r := AppendQuizCards(r, tag, quizFiles[i]);
    }
    assert quizFiles[..|quizFiles|] == quizFiles;
  }

  /** Lines 47-62: the cards of the flashcard files, in order. */
  method AppendFlashFiles(cards: seq<Card>, tag: string, flashcardFiles: seq<seq<CardEntry>>) returns (r: seq<Card>)
    ensures r == cards + FlatMap(Lifted(FlashEntryCards(tag)), flashcardFiles)
  {
    r := cards;
    for i := 0 to |flashcardFiles|
      invariant r == cards + FlatMap(Lifted(FlashEntryCards(tag)), flashcardFiles[..i])
    {
      assert flashcardFiles[..i + 1][..i] == flashcardFiles[..i];
      assert flashcardFiles[..i + 1][i] == flashcardFiles[i];
      r := AppendFlashCards(r, tag, flashcardFiles[i]);
    }
    assert flashcardFiles[..|flashcardFiles|] == flashcardFiles;
  }

  /** `export_to_anki` with the files already read: the cards and the rows
      of the CSV. */
  method ExportToAnki(title: Option<string>, quizFiles: seq<seq<QuizEntry>>,
                      flashcardFiles: seq<seq<CardEntry>>)
    returns (cards: seq<Card>, rows: seq<seq<string>>)
    ensures cards == AnkiCards(title, quizFiles, flashcardFiles)
    ensures rows == CsvRows(cards)
  {
    var tag := Tag(title);
    ghost var quiz := FlatMap(Lifted(QuizEntryCards(tag)), quizFiles);
    ghost var flash := FlatMap(Lifted(FlashEntryCards(tag)), flashcardFiles);
    cards := AppendQuizFiles([], tag, quizFiles);
    assert cards == quiz;
    cards := AppendFlashFiles(cards, tag, flashcardFiles);
    assert cards == quiz + flash;
    rows := [Header] + Map(CardRow, cards);
  }

  // ---------------------------------------------------------------------
  // Properties of the cards
  // ---------------------------------------------------------------------

  /** The cards are the qualifying questions of all quiz files, in file and
      then entry order, followed by the qualifying flashcards likewise: an
      entry yields a card exactly when both its texts are non-empty, and
      every quiz card comes before every flashcard card. */
  lemma CardsAreQualifyingEntries(title: Option<string>, quizFiles: seq<seq<QuizEntry>>,
                                  flashcardFiles: seq<seq<CardEntry>>)
    ensures AnkiCards(title, quizFiles, flashcardFiles) ==
      Map(QuizCard(Tag(title)), Filter(QuizQualifies, Flatten(quizFiles)))
      + Map(FlashCard(Tag(title)), Filter(FlashQualifies, Flatten(flashcardFiles)))
  {
    var tag := Tag(title);
    FlatMapFlatten(QuizEntryCards(tag), quizFiles);
    FlatMapSelect(QuizEntryCards(tag), QuizQualifies, QuizCard(tag), Flatten(quizFiles));
    FlatMapFlatten(FlashEntryCards(tag), flashcardFiles);
    FlatMapSelect(FlashEntryCards(tag), FlashQualifies, FlashCard(tag), Flatten(flashcardFiles));
  }

  /** There are as many cards as qualifying entries, and the CSV has one
      header row more. */
  lemma CardCount(title: Option<string>, quizFiles: seq<seq<QuizEntry>>,
                  flashcardFiles: seq<seq<CardEntry>>)
    ensures var cards := AnkiCards(title, quizFiles, flashcardFiles);
      && |cards| == |Filter(QuizQualifies, Flatten(quizFiles))| + |Filter(FlashQualifies, Flatten(flashcardFiles))|
      && |CsvRows(cards)| == |cards| + 1
  {
    CardsAreQualifyingEntries(title, quizFiles, flashcardFiles);
  }

  lemma QuizCardsTagged(tag: string, qs: seq<QuizEntry>)
    requires forall e :: e in qs ==> QuizQualifies(e)
    ensures var cards := Map(QuizCard(tag), qs);
      forall k :: 0 <= k < |cards| ==> cards[k].front != "" && cards[k].back != "" && cards[k].tags == tag + " quiz"
  {
    forall k | 0 <= k < |qs|
      ensures Map(QuizCard(tag), qs)[k].front != "" && Map(QuizCard(tag), qs)[k].back != ""
      ensures Map(QuizCard(tag), qs)[k].tags == tag + " quiz"
    {
      MapAt(QuizCard(tag), qs, k);
      assert qs[k] in qs;
    }
  }

  lemma FlashCardsTagged(tag: string, fs: seq<CardEntry>)
    requires forall e :: e in fs ==> FlashQualifies(e)
    ensures var cards := Map(FlashCard(tag), fs);
      forall k :: 0 <= k < |cards| ==> cards[k].front != "" && cards[k].back != "" && cards[k].tags == tag + " flashcard"
  {
    forall k | 0 <= k < |fs|
      ensures Map(FlashCard(tag), fs)[k].front != "" && Map(FlashCard(tag), fs)[k].back != ""
      ensures Map(FlashCard(tag), fs)[k].tags == tag + " flashcard"
    {
      MapAt(FlashCard(tag), fs, k);
      assert fs[k] in fs;
    }
  }

  /** Every card has both texts, and its tags are the notebook tag followed
      by its kind: the quiz cards come first, tagged `quiz`, then the
      flashcard cards, tagged `flashcard`. */
  lemma CardsTagged(title: Option<string>, quizFiles: seq<seq<QuizEntry>>,
                    flashcardFiles: seq<seq<CardEntry>>)
    ensures var cards := AnkiCards(title, quizFiles, flashcardFiles);
      var n := |Filter(QuizQualifies, Flatten(quizFiles))|;
      && n <= |cards|
      && (forall k :: 0 <= k < |cards| ==> cards[k].front != "" && cards[k].back != "")
      && (forall k :: 0 <= k < n ==> cards[k].tags == Tag(title) + " quiz")
      && (forall k :: n <= k < |cards| ==> cards[k].tags == Tag(title) + " flashcard")
  {
    var tag := Tag(title);
    CardsAreQualifyingEntries(title, quizFiles, flashcardFiles);
    var qs := Filter(QuizQualifies, Flatten(quizFiles));
    var fs := Filter(FlashQualifies, Flatten(flashcardFiles));
    FilterMembers(QuizQualifies, Flatten(quizFiles));
    FilterMembers(FlashQualifies, Flatten(flashcardFiles));
    QuizCardsTagged(tag, qs);
    FlashCardsTagged(tag, fs);
    var a, b := Map(QuizCard(tag), qs), Map(FlashCard(tag), fs);
    forall k | |a| <= k < |a| + |b| ensures (a + b)[k] == b[k - |a|] {
    }
  }

  /** The tag has no space left, so it is one Anki tag. */
  lemma TagHasNoSpace(title: Option<string>)
    ensures ' ' !in Tag(title)
  {
    assert " " == [' '];
    ReplaceCharRemoves(title.GetOr("NotebookLM"), ' ', "_");
  }
}
