/**
 * What a whole snapshot file preserves: the file `save_titles_to_file` writes,
 * read back by `parse_file_titles`, gives every platform that had titles with
 * the titles of its written lines and the name its header carries, in the
 * order the platforms were written. Platforms without titles leave only a
 * header line, which the reader skips, and the failed-request list is skipped
 * too.
 */
module SnapshotFile {
  import opened Wrappers
  import opened Text
  import opened Dicts
  import opened Records
  import opened Storage
  import opened SnapshotFormat

  /** The header line of a platform reads back as its id and name (see `HeaderRoundTrip`). */
  predicate HeaderWritable(id: string, idToName: map<string, string>) {
    && id != "" && Strip(id) == id && !Contains(id, " | ") && !EndsWith(id, " |")
    && (id in idToName ==> Strip(idToName[id]) == idToName[id])
    && '\n' !in HeaderLine(id, idToName) && !Contains(HeaderLine(id, idToName), FailedMarker)
  }

  /** A platform's header and every one of its lines can be held by the format. */
  predicate PlatformWritable(id: string, idToName: map<string, string>, titles: Titles)
    requires titles.Valid()
  {
    HeaderWritable(id, idToName) && forall e | e in SortedEntries(titles) :: SectionWritable(e)
  }

  /** A platform's section as the reader sees it between blank lines. */
  function Piece(id: string, idToName: map<string, string>, titles: Titles): string
    requires titles.Valid()
  {
    if |titles.keys| == 0 then HeaderLine(id, idToName)
    else Join([HeaderLine(id, idToName)] + LinesOf(SortedEntries(titles)), "\n")
  }

  /** A platform with titles has as many written lines as titles. */
  lemma SortedEntriesCount(titles: Titles)
    requires titles.Valid()
    ensures |SortedEntries(titles)| == |titles.keys|
  {
    SectionOrder(titles);
    assert |multiset(SortedEntries(titles))| == |multiset(EntriesOf(titles, |titles.keys|))|;
  }

  /** A stripped text with no line break is its own section: the blank line after it changes nothing. */
  lemma ParseSectionIgnoresBlank(j: string)
    requires |j| > 0 && !IsSpace(j[0]) && !IsSpace(j[|j| - 1])
    ensures ParseSection(j + "\n\n") == ParseSection(j)
  {
    StripUnchanged(j);
    StripTrailingBreaks(j);
    assert |FailedMarker| > 0 && '\n' !in FailedMarker;
    if !Contains(j, FailedMarker) {
      NoOccurBeforeBlank(j, FailedMarker);
    } else {
      var k :| 0 <= k <= |j| - |FailedMarker| && OccursAt(j, FailedMarker, k);
      assert (j + "\n\n")[k..k + |FailedMarker|] == j[k..k + |FailedMarker|];
      assert OccursAt(j + "\n\n", FailedMarker, k);
    }
  }

  /** A writable header is non-empty, starts with no whitespace and holds no line break. */
  lemma HeaderParts(id: string, idToName: map<string, string>)
    requires HeaderWritable(id, idToName)
    ensures var h := HeaderLine(id, idToName); |h| > 0 && !IsSpace(h[0]) && '\n' !in h
  {
    StripIdempotent(id);
    assert HeaderLine(id, idToName)[0] == id[0];
  }

  /** The entries of a writable platform are each fit for a section. */
  lemma EntriesWritable(titles: Titles, es: seq<LineEntry>)
    requires titles.Valid() && es == SortedEntries(titles)
    requires forall e | e in es :: SectionWritable(e)
    ensures forall i :: 0 <= i < |es| ==> SectionWritable(es[i])
  {
    forall i | 0 <= i < |es|
      ensures SectionWritable(es[i])
    {
      assert es[i] in es;
    }
  }

  /** The lines of entries fit for a section: non-empty, without line breaks, the last ending in no whitespace. */
  lemma LinesParts(es: seq<LineEntry>)
    requires |es| > 0 && forall i :: 0 <= i < |es| ==> SectionWritable(es[i])
    ensures var lines := LinesOf(es);
      && (forall i :: 0 <= i < |lines| ==> |lines[i]| > 0 && '\n' !in lines[i])
      && !IsSpace(lines[|lines| - 1][|lines[|lines| - 1]| - 1])
  {
    LinesSafe(es);
    LastLineUnstripped(es);
    LinesNonEmpty(es);
  }

  /** Every written line starts with its rank, so none is empty. */
  lemma LinesNonEmpty(es: seq<LineEntry>)
    ensures forall i :: 0 <= i < |es| ==> |LinesOf(es)[i]| > 0
  {
    forall i | 0 <= i < |es|
      ensures |LinesOf(es)[i]| > 0
    {
      var e := es[i];
      assert LinesOf(es)[i] == TitleLine(e);
      assert |TitleLine(e)| >= |IntToString(e.rank)|;
    }
  }

  /** The header and lines of a platform with titles, as the reader needs them. */
  lemma TitledParts(id: string, idToName: map<string, string>, titles: Titles)
    requires titles.Valid() && |titles.keys| > 0 && PlatformWritable(id, idToName, titles)
    ensures var h := HeaderLine(id, idToName); |h| > 0 && !IsSpace(h[0]) && '\n' !in h
    ensures var lines := LinesOf(SortedEntries(titles));
      && |lines| > 0
      && (forall i :: 0 <= i < |lines| ==> |lines[i]| > 0 && '\n' !in lines[i])
      && !IsSpace(lines[|lines| - 1][|lines[|lines| - 1]| - 1])
  {
    var es := SortedEntries(titles);
    SortedEntriesCount(titles);
    HeaderParts(id, idToName);
    EntriesWritable(titles, es);
    LinesParts(es);
  }

  /** Non-empty lines without line breaks, under a header: no blank line inside, and the ends of the first and last line. */
  lemma JoinedPieceShape(h: string, lines: seq<string>)
    requires |h| > 0 && '\n' !in h
    requires |lines| > 0 && forall i :: 0 <= i < |lines| ==> |lines[i]| > 0 && '\n' !in lines[i]
    ensures var j := Join([h] + lines, "\n"); var last := lines[|lines| - 1];
      && !Contains(j, "\n\n") && |j| > 0 && j[|j| - 1] != '\n'
      && j[0] == h[0] && j[|j| - 1] == last[|last| - 1]
  {
    var parts := [h] + lines;
    assert forall i :: 0 < i < |parts| ==> parts[i] == lines[i - 1];
    JoinLinesNoBlank(parts);
    JoinFirst(parts, "\n");
    assert parts[|parts| - 1] == lines[|lines| - 1];
    JoinLast(parts, "\n");
  }

  /** A platform with titles: its section is its piece, then a blank line. */
  lemma TitledPieceText(id: string, idToName: map<string, string>, titles: Titles)
    requires titles.Valid() && |titles.keys| > 0
    ensures SectionText(id, idToName, titles) == Piece(id, idToName, titles) + "\n\n"
  {
    SortedEntriesCount(titles);
    SectionJoined(HeaderLine(id, idToName), SortedEntries(titles));
  }

  /** A platform with titles: its piece holds no blank line, and begins and ends with no whitespace. */
  lemma TitledPieceShape(id: string, idToName: map<string, string>, titles: Titles)
    requires titles.Valid() && |titles.keys| > 0 && PlatformWritable(id, idToName, titles)
    ensures var j := Piece(id, idToName, titles);
      && !Contains(j, "\n\n") && |j| > 0 && j[|j| - 1] != '\n'
      && !IsSpace(j[0]) && !IsSpace(j[|j| - 1])
  {
    var h := HeaderLine(id, idToName);
    var lines := LinesOf(SortedEntries(titles));
    var j := Join([h] + lines, "\n");
    TitledParts(id, idToName, titles);
    JoinedPieceShape(h, lines);
    var last := lines[|lines| - 1];
    assert !IsSpace(last[|last| - 1]);
    assert j[|j| - 1] == last[|last| - 1];
  }

  /** A platform with titles: its piece reads back as its id, its written name and the titles of its lines. */
  lemma TitledPieceParses(id: string, idToName: map<string, string>, titles: Titles)
    requires titles.Valid() && |titles.keys| > 0 && PlatformWritable(id, idToName, titles)
    ensures ParseSection(Piece(id, idToName, titles))
         == Some(Section(id, WrittenName(id, idToName), EntriesTitles(SortedEntries(titles))))
  {
    var j := Piece(id, idToName, titles);
    TitledPieceText(id, idToName, titles);
    TitledPieceShape(id, idToName, titles);
    SectionRoundTrip(id, idToName, titles);
    ParseSectionIgnoresBlank(j);
  }

  /** A platform with titles: its section text, its shape between blank lines and what it reads back as. */
  lemma TitledPiece(id: string, idToName: map<string, string>, titles: Titles)
    requires titles.Valid() && |titles.keys| > 0 && PlatformWritable(id, idToName, titles)
    ensures SectionText(id, idToName, titles) == Piece(id, idToName, titles) + "\n\n"
    ensures var j := Piece(id, idToName, titles);
      !Contains(j, "\n\n") && |j| > 0 && j[|j| - 1] != '\n'
    ensures ParseSection(Piece(id, idToName, titles))
         == Some(Section(id, WrittenName(id, idToName), EntriesTitles(SortedEntries(titles))))
  {
    TitledPieceText(id, idToName, titles);
    TitledPieceShape(id, idToName, titles);
    TitledPieceParses(id, idToName, titles);
  }

  /** A platform without titles: its header alone, which the reader skips. */
  lemma UntitledPiece(id: string, idToName: map<string, string>, titles: Titles)
    requires titles.Valid() && |titles.keys| == 0 && HeaderWritable(id, idToName)
    ensures SectionText(id, idToName, titles) == Piece(id, idToName, titles) + "\n\n"
    ensures var j := Piece(id, idToName, titles);
      !Contains(j, "\n\n") && |j| > 0 && j[|j| - 1] != '\n'
    ensures ParseSection(Piece(id, idToName, titles)) == None
  {
    var h := HeaderLine(id, idToName);
    NoTitlesSection(id, idToName, titles);
    JoinLinesNoBlank([h]);
    assert Join([h], "\n") == h;
    OneLineSectionSkipped(h);
  }

  /** The pieces of the platforms `ids`, in order. */
  function Pieces(results: Results, idToName: map<string, string>, ids: seq<string>): (r: seq<string>)
    requires ValidResults(results)
    requires forall i :: 0 <= i < |ids| ==> ids[i] in results.vals
    ensures |r| == |ids|
  {
    seq(|ids|, i requires 0 <= i < |ids| => Piece(ids[i], idToName, results.vals[ids[i]]))
  }

  /** The platforms `ids` are all writable. */
  predicate AllWritable(results: Results, idToName: map<string, string>, ids: seq<string>)
    requires ValidResults(results)
  {
    forall i :: 0 <= i < |ids| ==> ids[i] in results.vals && PlatformWritable(ids[i], idToName, results.vals[ids[i]])
  }

  /** Pieces, each followed by a blank line. */
  function BlankJoined(pieces: seq<string>): string
    decreases |pieces|
  {
    if |pieces| == 0 then "" else BlankJoined(pieces[..|pieces| - 1]) + pieces[|pieces| - 1] + "\n\n"
  }

  /** The same, taken from the front. */
  lemma {:induction false} BlankJoinedCons(pieces: seq<string>)
    requires |pieces| > 0
    ensures BlankJoined(pieces) == pieces[0] + "\n\n" + BlankJoined(pieces[1..])
    decreases |pieces|
  {
    var n := |pieces|;
    var front := pieces[..n - 1];
    if n == 1 {
      assert front == [] && pieces[1..] == [];
    } else {
      BlankJoinedCons(front);
      assert front[1..] == pieces[1..][..n - 2];
      assert pieces[1..][n - 2] == pieces[n - 1];
    }
  }

  /** A piece holds no blank line and ends in no line break, so a blank line after it is where the split cuts. */
  predicate IsPiece(j: string) {
    !Contains(j, "\n\n") && |j| > 0 && j[|j| - 1] != '\n'
  }

  /** Splitting a blank-line join at blank lines first cuts off its first piece. */
  lemma SplitBlankJoinedStep(pieces: seq<string>, tail: string)
    requires |pieces| > 0 && IsPiece(pieces[0])
    ensures Split(BlankJoined(pieces) + tail, "\n\n")
         == [pieces[0]] + Split(BlankJoined(pieces[1..]) + tail, "\n\n")
  {
    var rest := BlankJoined(pieces[1..]) + tail;
    assert BlankJoined(pieces) + tail == pieces[0] + "\n\n" + rest by {
      BlankJoinedCons(pieces);
    }
    SplitAfterPiece(pieces[0], rest);
  }

  /** Pieces split back from their blank-line join. */
  lemma {:induction false} SplitBlankJoined(pieces: seq<string>, tail: string)
    requires forall i :: 0 <= i < |pieces| ==> IsPiece(pieces[i])
    ensures Split(BlankJoined(pieces) + tail, "\n\n") == pieces + Split(tail, "\n\n")
    decreases |pieces|
  {
    if |pieces| == 0 {
      assert BlankJoined(pieces) + tail == tail;
    } else {
      var after := Split(tail, "\n\n");
      SplitBlankJoinedStep(pieces, tail);
      assert forall i :: 0 <= i < |pieces[1..]| ==> pieces[1..][i] == pieces[i + 1];
      SplitBlankJoined(pieces[1..], tail);
      assert [pieces[0]] + (pieces[1..] + after) == pieces + after;
    }
  }

  /** A platform's section is its piece, then a blank line, whether or not it has titles. */
  lemma SectionIsPiece(id: string, idToName: map<string, string>, titles: Titles)
    requires titles.Valid() && PlatformWritable(id, idToName, titles)
    ensures SectionText(id, idToName, titles) == Piece(id, idToName, titles) + "\n\n"
    ensures IsPiece(Piece(id, idToName, titles))
  {
    if |titles.keys| > 0 {
      TitledPieceText(id, idToName, titles);
      TitledPieceShape(id, idToName, titles);
    } else {
      UntitledPiece(id, idToName, titles);
    }
  }

  /** Each platform of `ids` writes its piece and then a blank line. */
  predicate SectionsArePiecesEach(results: Results, idToName: map<string, string>, ids: seq<string>)
    requires ValidResults(results)
  {
    forall i :: 0 <= i < |ids| ==>
      ids[i] in results.vals
      && SectionText(ids[i], idToName, results.vals[ids[i]]) == Piece(ids[i], idToName, results.vals[ids[i]]) + "\n\n"
  }

  /** The sections of `ids` are their pieces joined by blank lines. */
  lemma SectionsArePieces(results: Results, idToName: map<string, string>, ids: seq<string>)
    requires ValidResults(results) && AllWritable(results, idToName, ids)
    ensures SectionsText(results, idToName, ids) == BlankJoined(Pieces(results, idToName, ids))
  {
    forall i | 0 <= i < |ids|
      ensures SectionText(ids[i], idToName, results.vals[ids[i]]) == Piece(ids[i], idToName, results.vals[ids[i]]) + "\n\n"
    {
      SectionIsPiece(ids[i], idToName, results.vals[ids[i]]);
    }
    SectionsJoinPieces(results, idToName, ids);
  }

  /** The blank-line join of the pieces of `ids` grows by the last platform's piece. */
  lemma BlankJoinedPiecesSnoc(results: Results, idToName: map<string, string>, ids: seq<string>)
    requires ValidResults(results) && |ids| > 0
    requires forall i :: 0 <= i < |ids| ==> ids[i] in results.vals
    ensures var p := ids[|ids| - 1];
      BlankJoined(Pieces(results, idToName, ids))
      == BlankJoined(Pieces(results, idToName, ids[..|ids| - 1])) + Piece(p, idToName, results.vals[p]) + "\n\n"
  {
    var pieces := Pieces(results, idToName, ids);
    assert pieces[..|ids| - 1] == Pieces(results, idToName, ids[..|ids| - 1]);
  }

  /** Sections that are each their piece and a blank line join to the blank-line join of the pieces. */
  lemma {:induction false} SectionsJoinPieces(results: Results, idToName: map<string, string>, ids: seq<string>)
    requires ValidResults(results) && SectionsArePiecesEach(results, idToName, ids)
    ensures SectionsText(results, idToName, ids) == BlankJoined(Pieces(results, idToName, ids))
    decreases |ids|
  {
    if |ids| > 0 {
      var front := ids[..|ids| - 1];
      assert SectionsArePiecesEach(results, idToName, front) by {
        assert forall i :: 0 <= i < |front| ==> front[i] == ids[i];
      }
      var p := ids[|ids| - 1];
      var j := Piece(p, idToName, results.vals[p]);
      var joined := BlankJoined(Pieces(results, idToName, front));
      calc {
        SectionsText(results, idToName, ids);
        SectionsText(results, idToName, front) + SectionText(p, idToName, results.vals[p]);
        { SectionsJoinPieces(results, idToName, front); }
        joined + (j + "\n\n");
        { AppendAssoc(joined, j, "\n\n"); }
        joined + j + "\n\n";
        { BlankJoinedPiecesSnoc(results, idToName, ids); }
        BlankJoined(Pieces(results, idToName, ids));
      }
    }
  }

  /** The pieces of writable platforms are what `SplitBlankJoined` needs. */
  lemma PiecesShape(results: Results, idToName: map<string, string>, ids: seq<string>)
    requires ValidResults(results) && AllWritable(results, idToName, ids)
    ensures var pieces := Pieces(results, idToName, ids);
      forall i :: 0 <= i < |pieces| ==> IsPiece(pieces[i])
  {
    forall i | 0 <= i < |ids|
      ensures IsPiece(Pieces(results, idToName, ids)[i])
    {
      SectionIsPiece(ids[i], idToName, results.vals[ids[i]]);
    }
  }

  /** Split at blank lines, the sections give the pieces of their platforms, then whatever follows splits on its own. */
  lemma SectionsSplit(results: Results, idToName: map<string, string>, ids: seq<string>, tail: string)
    requires ValidResults(results) && AllWritable(results, idToName, ids)
    ensures Split(SectionsText(results, idToName, ids) + tail, "\n\n")
         == Pieces(results, idToName, ids) + Split(tail, "\n\n")
  {
    SectionsArePieces(results, idToName, ids);
    PiecesShape(results, idToName, ids);
    SplitBlankJoined(Pieces(results, idToName, ids), tail);
  }

  /** The failed ids each reach the file as one line. */
  predicate FailedWritable(failedIds: seq<string>) {
    forall i :: 0 <= i < |failedIds| ==> failedIds[i] != "" && '\n' !in failedIds[i]
  }

  /** One line per id, joined by line breaks, with one more after the last. */
  lemma {:induction false} IdLinesJoined(ids: seq<string>)
    requires |ids| > 0
    ensures IdLines(ids) == Join(ids, "\n") + "\n"
    decreases |ids|
  {
    var front := ids[..|ids| - 1];
    var last := ids[|ids| - 1];
    if |ids| == 1 {
      assert front == [];
    } else {
      IdLinesJoined(front);
      assert ids == front + [last];
      JoinSnoc(front, last, "\n");
    }
  }

  /** The failed-request list is one piece, and the reader skips it. */
  lemma FailedPiece(failedIds: seq<string>)
    requires FailedWritable(failedIds)
    ensures Split(FailedText(failedIds), "\n\n") == [FailedText(failedIds)]
    ensures ParseSection(FailedText(failedIds)) == None
  {
    if |failedIds| > 0 {
      var parts := [FailedMarker] + failedIds;
      IdLinesJoined(failedIds);
      assert parts[1..] == failedIds;
      assert Join(parts, "\n") == FailedMarker + "\n" + Join(failedIds, "\n");
      assert FailedText(failedIds) == Join(parts, "\n") + "\n";
      assert |FailedMarker| > 0 && '\n' !in FailedMarker;
      assert forall i :: 0 < i < |parts| ==> parts[i] == failedIds[i - 1];
      JoinLinesNoBlank(parts);
      BreakAfterNoBlank(Join(parts, "\n"));
      SplitNoBlank(FailedText(failedIds));
      FailedSectionSkipped(failedIds);
    }
  }

  /**
   * What reading the pieces of `ids` gives: each platform with titles, in order,
   * mapped to the titles of its written lines and to the name its header
   * carries; a later platform of the same id replaces an earlier one.
   */
  function WrittenSections(results: Results, idToName: map<string, string>, ids: seq<string>): (r: (Results, map<string, string>))
    requires ValidResults(results)
    requires forall i :: 0 <= i < |ids| ==> ids[i] in results.vals
    decreases |ids|
  {
    if |ids| == 0 then (Empty(), map[])
    else
      var acc := WrittenSections(results, idToName, ids[..|ids| - 1]);
      var p := ids[|ids| - 1];
      var t := results.vals[p];
      if |t.keys| == 0 then acc
      else (acc.0.Put(p, EntriesTitles(SortedEntries(t))), acc.1[p := WrittenName(p, idToName)])
  }

  /** Each platform of `ids` reads back from its piece: nothing for one without titles, else its written section. */
  predicate PiecesReadEach(results: Results, idToName: map<string, string>, ids: seq<string>)
    requires ValidResults(results)
  {
    forall i :: 0 <= i < |ids| ==>
      ids[i] in results.vals
      && ParseSection(Piece(ids[i], idToName, results.vals[ids[i]]))
         == if |results.vals[ids[i]].keys| == 0 then None
            else Some(Section(ids[i], WrittenName(ids[i], idToName), EntriesTitles(SortedEntries(results.vals[ids[i]]))))
  }

  /** Reading the pieces of `ids` section by section gives `WrittenSections`. */
  lemma PiecesParse(results: Results, idToName: map<string, string>, ids: seq<string>)
    requires ValidResults(results) && AllWritable(results, idToName, ids)
    ensures ParseSections(Pieces(results, idToName, ids)) == WrittenSections(results, idToName, ids)
  {
    forall i | 0 <= i < |ids|
      ensures ParseSection(Piece(ids[i], idToName, results.vals[ids[i]]))
         == if |results.vals[ids[i]].keys| == 0 then None
            else Some(Section(ids[i], WrittenName(ids[i], idToName), EntriesTitles(SortedEntries(results.vals[ids[i]]))))
    {
      if |results.vals[ids[i]].keys| > 0 {
        TitledPiece(ids[i], idToName, results.vals[ids[i]]);
      } else {
        UntitledPiece(ids[i], idToName, results.vals[ids[i]]);
      }
    }
    PiecesReadBack(results, idToName, ids);
  }

  /** Reading the pieces of `ids` reads the front's pieces and then the last one. */
  lemma ParseSectionsPiecesSnoc(results: Results, idToName: map<string, string>, ids: seq<string>)
    requires ValidResults(results) && |ids| > 0
    requires forall i :: 0 <= i < |ids| ==> ids[i] in results.vals
    ensures var acc := ParseSections(Pieces(results, idToName, ids[..|ids| - 1]));
      var p := ids[|ids| - 1];
      var last := ParseSection(Piece(p, idToName, results.vals[p]));
      ParseSections(Pieces(results, idToName, ids))
      == if last.None? then acc else (acc.0.Put(last.value.id, last.value.titles), acc.1[last.value.id := last.value.name])
  {
    var pieces := Pieces(results, idToName, ids);
    assert pieces[..|ids| - 1] == Pieces(results, idToName, ids[..|ids| - 1]);
  }

  /** Pieces that each read back as written read back, together, as `WrittenSections`. */
  lemma {:induction false} PiecesReadBack(results: Results, idToName: map<string, string>, ids: seq<string>)
    requires ValidResults(results) && PiecesReadEach(results, idToName, ids)
    ensures ParseSections(Pieces(results, idToName, ids)) == WrittenSections(results, idToName, ids)
    decreases |ids|
  {
    if |ids| > 0 {
      var front := ids[..|ids| - 1];
      assert PiecesReadEach(results, idToName, front) by {
        assert forall i :: 0 <= i < |front| ==> front[i] == ids[i];
      }
      PiecesReadBack(results, idToName, front);
      ParseSectionsPiecesSnoc(results, idToName, ids);
    }
  }

  /** A last section the reader skips adds nothing. */
  lemma ParseSectionsSkip(sections: seq<string>, x: string)
    requires ParseSection(x) == None
    ensures ParseSections(sections + [x]) == ParseSections(sections)
  {
    assert (sections + [x])[..|sections|] == sections;
  }

  /**
   * `parse_file_titles` on what `save_titles_to_file` wrote gives back every
   * platform that had titles, with the titles of its written lines and the
   * name its header carries, for platforms and failed ids the format can hold.
   */
  lemma SnapshotRoundTrip(results: Results, idToName: map<string, string>, failedIds: seq<string>)
    requires ValidResults(results) && AllWritable(results, idToName, results.keys)
    requires FailedWritable(failedIds)
    ensures ParseSnapshot(SnapshotText(results, idToName, failedIds))
         == WrittenSections(results, idToName, results.keys)
  {
    var pieces := Pieces(results, idToName, results.keys);
    var failed := FailedText(failedIds);
    SectionsSplit(results, idToName, results.keys, failed);
    FailedPiece(failedIds);
    assert Split(SnapshotText(results, idToName, failedIds), "\n\n") == pieces + [failed];
    ParseSectionsSkip(pieces, failed);
    PiecesParse(results, idToName, results.keys);
  }

  /**
   * `WrittenSections` holds exactly the platforms of `ids` with titles, each
   * with the titles of its written lines and the name its header carries.
   */
  lemma WrittenSectionsHold(results: Results, idToName: map<string, string>, ids: seq<string>)
    requires ValidResults(results)
    requires forall i :: 0 <= i < |ids| ==> ids[i] in results.vals
    ensures var r := WrittenSections(results, idToName, ids);
      && r.0.Valid()
      && (forall p :: p in r.0.vals <==> p in ids && |results.vals[p].keys| > 0)
      && (forall p :: p in r.1 <==> p in r.0.vals)
      && (forall p :: p in r.0.vals ==>
            r.0.vals[p] == EntriesTitles(SortedEntries(results.vals[p])) && r.1[p] == WrittenName(p, idToName))
  {
    WrittenSectionsKeys(results, idToName, ids);
    WrittenSectionsValues(results, idToName, ids);
  }

  /** `WrittenSections` holds the platforms of `ids` with titles, in both of its maps. */
  lemma {:induction false} WrittenSectionsKeys(results: Results, idToName: map<string, string>, ids: seq<string>)
    requires ValidResults(results)
    requires forall i :: 0 <= i < |ids| ==> ids[i] in results.vals
    ensures var r := WrittenSections(results, idToName, ids);
      && r.0.Valid()
      && (forall p :: p in r.0.vals <==> p in ids && |results.vals[p].keys| > 0)
      && (forall p :: p in r.1 <==> p in r.0.vals)
    decreases |ids|
  {
    if |ids| > 0 {
      var front := ids[..|ids| - 1];
      var p := ids[|ids| - 1];
      WrittenSectionsKeys(results, idToName, front);
      forall q
        ensures q in ids <==> q in front || q == p
      {
        assert ids == front + [p];
      }
    }
  }

  /** Each platform in `WrittenSections` carries the titles of its written lines and the name its header carries. */
  lemma {:induction false} WrittenSectionsValues(results: Results, idToName: map<string, string>, ids: seq<string>)
    requires ValidResults(results)
    requires forall i :: 0 <= i < |ids| ==> ids[i] in results.vals
    ensures var r := WrittenSections(results, idToName, ids);
      && (forall p :: p in r.0.vals ==> p in results.vals && r.0.vals[p] == EntriesTitles(SortedEntries(results.vals[p])))
      && (forall p :: p in r.1 ==> r.1[p] == WrittenName(p, idToName))
    decreases |ids|
  {
    if |ids| > 0 {
      WrittenSectionsValues(results, idToName, ids[..|ids| - 1]);
    }
  }

  /** With each platform listed once, the platforms read back keep the order they were written in. */
  lemma {:induction false} WrittenSectionsOrder(results: Results, idToName: map<string, string>, ids: seq<string>)
    requires ValidResults(results)
    requires forall i :: 0 <= i < |ids| ==> ids[i] in results.vals
    requires Distinct(ids)
    ensures WrittenSections(results, idToName, ids).0.keys
         == FilterSeq(ids, p => p in results.vals && |results.vals[p].keys| > 0)
    decreases |ids|
  {
    var keep := p => p in results.vals && |results.vals[p].keys| > 0;
    if |ids| == 0 {
      assert FilterSeq(ids, keep) == [];
    } else {
      var n := |ids|;
      var front := ids[..n - 1];
      var p := ids[n - 1];
      assert ids == front + [p];
      assert Distinct(front) by {
        forall i, k | 0 <= i < k < |front|
          ensures front[i] != front[k]
        {
          assert front[i] == ids[i] && front[k] == ids[k];
        }
      }
      assert p !in front by {
        forall i | 0 <= i < |front|
          ensures front[i] != p
        {
          assert front[i] == ids[i];
        }
      }
      WrittenSectionsHold(results, idToName, front);
      WrittenSectionsOrder(results, idToName, front);
      FilterSeqSnoc(front, p, keep);
    }
  }
}
