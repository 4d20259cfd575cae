/**
 * The keyword-rule file (`frequency_words.txt`): groups separated by blank
 * lines, one word per line, "!" marking a filter word and "+" a required
 * word. The file's text is passed in.
 */
module Config {
  import opened Wrappers
  import opened Text
  import opened Matcher

  /** The parts that are not blank, each stripped, in order. */
  function NonBlank(parts: seq<string>): seq<string>
    decreases |parts|
  {
    if |parts| == 0 then []
    else
      var w := Strip(parts[|parts| - 1]);
      NonBlank(parts[..|parts| - 1]) + (if w != "" then [w] else [])
  }

  /** `[p.strip() for p in parts if p.strip()]`: every result is stripped and non-empty, and comes from a part. */
  lemma {:induction false} NonBlankMeans(parts: seq<string>)
    ensures forall i :: 0 <= i < |NonBlank(parts)| ==> NonBlank(parts)[i] != "" && Strip(NonBlank(parts)[i]) == NonBlank(parts)[i]
    ensures forall w :: w in NonBlank(parts) <==> exists i :: 0 <= i < |parts| && Strip(parts[i]) == w && w != ""
    decreases |parts|
  {
    if |parts| > 0 {
      var n := |parts| - 1;
      NonBlankMeans(parts[..n]);
      StripIdempotent(parts[n]);
      assert forall i :: 0 <= i < n ==> parts[..n][i] == parts[i];
    }
  }

  /** The groups of the file: blank-line separated, stripped, blank ones dropped. */
  function GroupTexts(content: string): seq<string> {
    NonBlank(Split(content, "\n\n"))
  }

  /** The words of one group: one per line, stripped, blank lines dropped. */
  function GroupWords(group: string): seq<string> {
    NonBlank(Split(group, "\n"))
  }

  /** The filter words of a group, "!" removed. */
  function FiltersOf(words: seq<string>): seq<string>
    decreases |words|
  {
    if |words| == 0 then []
    else
      var w := words[|words| - 1];
      FiltersOf(words[..|words| - 1]) + (if StartsWith(w, "!") then [w[1..]] else [])
  }

  /** The required words of a group, "+" removed. */
  function RequiredOf(words: seq<string>): seq<string>
    decreases |words|
  {
    if |words| == 0 then []
    else
      var w := words[|words| - 1];
      RequiredOf(words[..|words| - 1]) + (if !StartsWith(w, "!") && StartsWith(w, "+") then [w[1..]] else [])
  }

  /** The normal words of a group, as written. */
  function NormalOf(words: seq<string>): seq<string>
    decreases |words|
  {
    if |words| == 0 then []
    else
      var w := words[|words| - 1];
      NormalOf(words[..|words| - 1]) + (if !StartsWith(w, "!") && !StartsWith(w, "+") then [w] else [])
  }

  /** The group a word list gives: none when it has neither required nor normal words. */
  function GroupOf(words: seq<string>): Option<WordGroup> {
    var required := RequiredOf(words);
    var normal := NormalOf(words);
    if |required| == 0 && |normal| == 0 then None
    else Some(WordGroup(required, normal, if |normal| > 0 then Join(normal, " ") else Join(required, " ")))
  }

  function OptionSeq<T>(o: Option<T>): seq<T> {
    if o.Some? then [o.value] else []
  }

  /** The words of each group of the file. */
  function WordLists(groups: seq<string>): (r: seq<seq<string>>)
    ensures |r| == |groups|
    ensures forall i :: 0 <= i < |groups| ==> r[i] == GroupWords(groups[i])
  {
    seq(|groups|, i requires 0 <= i < |groups| => GroupWords(groups[i]))
  }

  /** The groups and filter words of the groups' word lists, in order. */
  function RulesOf(lists: seq<seq<string>>): (seq<WordGroup>, seq<string>)
    decreases |lists|
  {
    if |lists| == 0 then ([], [])
    else
      var acc := RulesOf(lists[..|lists| - 1]);
      var words := lists[|lists| - 1];
      (acc.0 + OptionSeq(GroupOf(words)), acc.1 + FiltersOf(words))
  }

  /** What `load_frequency_words` returns for a file's text. */
  function FrequencyRules(content: string): (seq<WordGroup>, seq<string>) {
    RulesOf(WordLists(GroupTexts(content)))
  }

  // ---------------------------------------------------------------------------
  // Properties
  // ---------------------------------------------------------------------------

  /**
   * Each word goes to exactly one list by its first character, "!" checked
   * before "+": a filter word is a "!" word less its "!", a required word a
   * "+" word less its "+", a normal word one with neither prefix.
   */
  lemma {:induction false} ClassifyWords(words: seq<string>)
    ensures |FiltersOf(words)| + |RequiredOf(words)| + |NormalOf(words)| == |words|
    ensures forall x :: x in FiltersOf(words) <==> "!" + x in words
    ensures forall x :: x in RequiredOf(words) <==> "+" + x in words
    ensures forall x :: x in NormalOf(words) <==> x in words && !StartsWith(x, "!") && !StartsWith(x, "+")
    decreases |words|
  {
    if |words| > 0 {
      var front := words[..|words| - 1];
      var w := words[|words| - 1];
      ClassifyWords(front);
      assert words == front + [w];
      forall x
        ensures x in FiltersOf(words) <==> "!" + x in words
        ensures x in RequiredOf(words) <==> "+" + x in words
      {
        if StartsWith(w, "!") {
          assert w == "!" + w[1..];
        }
        if StartsWith(w, "+") {
          assert w == "+" + w[1..];
        }
        assert ("!" + x)[..1] == "!" && ("+" + x)[..1] == "+";
        assert ("!" + x)[1..] == x && ("+" + x)[1..] == x;
      }
    }
  }

  /**
   * Every group emitted has a required or a normal word; its key is its
   * normal words joined by a space, or its required words when it has no
   * normal ones.
   */
  lemma {:induction false} EmittedGroupsHaveWords(lists: seq<seq<string>>)
    ensures forall g :: g in RulesOf(lists).0 ==>
      && (|g.required| > 0 || |g.normal| > 0)
      && g.groupKey == (if |g.normal| > 0 then Join(g.normal, " ") else Join(g.required, " "))
    decreases |lists|
  {
    if |lists| > 0 {
      EmittedGroupsHaveWords(lists[..|lists| - 1]);
    }
  }

  /** Every emitted group is the group of one of the word lists, in file order. */
  lemma {:induction false} GroupsFromFile(lists: seq<seq<string>>)
    ensures forall g :: g in RulesOf(lists).0 ==> exists i :: 0 <= i < |lists| && GroupOf(lists[i]) == Some(g)
    decreases |lists|
  {
    if |lists| > 0 {
      var n := |lists| - 1;
      var front := lists[..n];
      GroupsFromFile(front);
      var acc := RulesOf(front);
      var last := GroupOf(lists[n]);
      forall g | g in RulesOf(lists).0
        ensures exists i :: 0 <= i < |lists| && GroupOf(lists[i]) == Some(g)
      {
        if g in acc.0 {
          var i :| 0 <= i < |front| && GroupOf(front[i]) == Some(g);
          assert lists[i] == front[i];
        } else {
          assert last == Some(g);
        }
      }
    }
  }

  /** The positions of the word lists that give a group, in file order. */
  function EmittingLists(lists: seq<seq<string>>): seq<nat>
    decreases |lists|
  {
    if |lists| == 0 then []
    else
      var n := |lists| - 1;
      EmittingLists(lists[..n]) + (if GroupOf(lists[n]).Some? then [n] else [])
  }

  /** The positions in `EmittingLists` are positions of `lists`, increasing. */
  lemma {:induction false} EmittingListsIncrease(lists: seq<seq<string>>)
    ensures forall k :: 0 <= k < |EmittingLists(lists)| ==> EmittingLists(lists)[k] < |lists|
    ensures forall k, l :: 0 <= k < l < |EmittingLists(lists)| ==> EmittingLists(lists)[k] < EmittingLists(lists)[l]
    decreases |lists|
  {
    if |lists| > 0 {
      var n := |lists| - 1;
      var before := EmittingLists(lists[..n]);
      EmittingListsIncrease(lists[..n]);
      assert EmittingLists(lists) == before + (if GroupOf(lists[n]).Some? then [n] else []);
    }
  }

  /** A position is in `EmittingLists` exactly when its word list gives a group. */
  lemma {:induction false} EmittingListsMembers(lists: seq<seq<string>>)
    ensures forall i: int :: i in EmittingLists(lists) <==> 0 <= i < |lists| && GroupOf(lists[i]).Some?
    decreases |lists|
  {
    if |lists| > 0 {
      var n := |lists| - 1;
      var front := lists[..n];
      var before := EmittingLists(front);
      EmittingListsMembers(front);
      assert EmittingLists(lists) == before + (if GroupOf(lists[n]).Some? then [n] else []);
      forall i: int
        ensures i in EmittingLists(lists) <==> 0 <= i < |lists| && GroupOf(lists[i]).Some?
      {
        if 0 <= i < n {
          assert lists[i] == front[i];
        }
      }
    }
  }

  /** The emitted groups are, one for one and in order, the groups of the lists at `EmittingLists`. */
  lemma {:induction false} GroupsInFileOrder(lists: seq<seq<string>>)
    ensures var groups := RulesOf(lists).0;
      var at := EmittingLists(lists);
      |groups| == |at| && forall k :: 0 <= k < |at| ==> at[k] < |lists| && GroupOf(lists[at[k]]) == Some(groups[k])
    decreases |lists|
  {
    if |lists| > 0 {
      var n := |lists| - 1;
      var front := lists[..n];
      GroupsInFileOrder(front);
      var at := EmittingLists(lists);
      var groups := RulesOf(lists).0;
      forall k | 0 <= k < |EmittingLists(front)|
        ensures at[k] < |lists| && GroupOf(lists[at[k]]) == Some(groups[k])
      {
        assert at[k] == EmittingLists(front)[k];
        assert groups[k] == RulesOf(front).0[k];
        assert lists[at[k]] == front[at[k]];
      }
    }
  }

  /** Every word list with a required or a normal word gives its group to the emitted groups. */
  lemma GroupsFromFileComplete(lists: seq<seq<string>>)
    ensures forall i :: 0 <= i < |lists| && (|RequiredOf(lists[i])| > 0 || |NormalOf(lists[i])| > 0) ==>
      GroupOf(lists[i]).Some? && GroupOf(lists[i]).value in RulesOf(lists).0
  {
    EmittingListsMembers(lists);
    GroupsInFileOrder(lists);
    forall i | 0 <= i < |lists| && (|RequiredOf(lists[i])| > 0 || |NormalOf(lists[i])| > 0)
      ensures GroupOf(lists[i]).Some? && GroupOf(lists[i]).value in RulesOf(lists).0
    {
      var at := EmittingLists(lists);
      assert i in at;
      var k :| 0 <= k < |at| && at[k] == i;
      assert RulesOf(lists).0[k] == GroupOf(lists[i]).value;
    }
  }

  /** Of two word lists that both give a group, the earlier one's group is emitted first. */
  lemma GroupsKeepFileOrder(lists: seq<seq<string>>, i: nat, j: nat)
    requires i < j < |lists| && GroupOf(lists[i]).Some? && GroupOf(lists[j]).Some?
    ensures exists k, l ::
      && 0 <= k < l < |RulesOf(lists).0|
      && RulesOf(lists).0[k] == GroupOf(lists[i]).value
      && RulesOf(lists).0[l] == GroupOf(lists[j]).value
  {
    var at := EmittingLists(lists);
    var groups := RulesOf(lists).0;
    EmittingListsIncrease(lists);
    EmittingListsMembers(lists);
    GroupsInFileOrder(lists);
    assert i in at && j in at;
    var k :| 0 <= k < |at| && at[k] == i;
    var l :| 0 <= l < |at| && at[l] == j;
    assert groups[k] == GroupOf(lists[i]).value && groups[l] == GroupOf(lists[j]).value;
  }

  /** The filter words are those of every group, including groups that emit nothing. */
  lemma FiltersFromEveryGroup(lists: seq<seq<string>>)
    ensures forall x :: x in RulesOf(lists).1 <==> exists i :: 0 <= i < |lists| && x in FiltersOf(lists[i])
  {
    forall x
      ensures x in RulesOf(lists).1 <==> exists i :: 0 <= i < |lists| && x in FiltersOf(lists[i])
    {
      if x in RulesOf(lists).1 {
        var i := FilterWordSource(lists, x);
      }
      if exists i :: 0 <= i < |lists| && x in FiltersOf(lists[i]) {
        var i :| 0 <= i < |lists| && x in FiltersOf(lists[i]);
        FilterWordKept(lists, i, x);
      }
    }
  }

  /** The filter words of the groups so far, then those of the last group. */
  lemma FiltersStep(lists: seq<seq<string>>)
    requires |lists| > 0
    ensures RulesOf(lists).1 == RulesOf(lists[..|lists| - 1]).1 + FiltersOf(lists[|lists| - 1])
  {
  }

  /** A filter word comes from some group. */
  lemma {:induction false} FilterWordSource(lists: seq<seq<string>>, x: string) returns (i: nat)
    requires x in RulesOf(lists).1
    ensures i < |lists| && x in FiltersOf(lists[i])
    decreases |lists|
  {
    var n := |lists| - 1;
    FiltersStep(lists);
    if x in RulesOf(lists[..n]).1 {
      i := FilterWordSource(lists[..n], x);
      FrontAt(lists, n, i);
    } else {
      i := n;
    }
  }

  /** Every group's filter words are kept. */
  lemma {:induction false} FilterWordKept(lists: seq<seq<string>>, i: nat, x: string)
    requires i < |lists| && x in FiltersOf(lists[i])
    ensures x in RulesOf(lists).1
    decreases |lists|
  {
    var n := |lists| - 1;
    FiltersStep(lists);
    if i < n {
      FrontAt(lists, n, i);
      FilterWordKept(lists[..n], i, x);
    }
  }

  /** Indexing the front of a sequence below its end is indexing the sequence. */
  lemma FrontAt<T>(s: seq<T>, n: nat, i: nat)
    requires i < n <= |s|
    ensures s[..n][i] == s[i]
  {
  }

  // ---------------------------------------------------------------------------
  // The loops of `load_frequency_words`
  // ---------------------------------------------------------------------------

  /** The stripped non-blank parts, collected in order. */
  method CollectNonBlank(parts: seq<string>) returns (r: seq<string>)
    ensures r == NonBlank(parts)
  {
    r := [];
    var i := 0;
    while i < |parts|
      invariant 0 <= i <= |parts|
      invariant r == NonBlank(parts[..i])
    {
      assert parts[..i + 1][..i] == parts[..i];
      var w := Strip(parts[i]);
      if w != "" {
        r := r + [w];
      }
      i := i + 1;
    }
    assert parts[..i] == parts;
  }

  /** One group's words sorted into required, normal and filter words. */
  method SortWords(words: seq<string>) returns (required: seq<string>, normal: seq<string>, filters: seq<string>)
    ensures required == RequiredOf(words) && normal == NormalOf(words) && filters == FiltersOf(words)
  {
    required, normal, filters := [], [], [];
    var i := 0;
    while i < |words|
      invariant 0 <= i <= |words|
      invariant required == RequiredOf(words[..i]) && normal == NormalOf(words[..i]) && filters == FiltersOf(words[..i])
    {
      assert words[..i + 1][..i] == words[..i];
      var w := words[i];
      if StartsWith(w, "!") {
        filters := filters + [w[1..]];
      } else if StartsWith(w, "+") {
        required := required + [w[1..]];
      } else {
        normal := normal + [w];
      }
      i := i + 1;
    }
    assert words[..i] == words;
  }

  /** One group's words sorted, and a group built when it has required or normal words. */
  method BuildGroup(words: seq<string>) returns (group: Option<WordGroup>, filters: seq<string>)
    ensures group == GroupOf(words) && filters == FiltersOf(words)
  {
    var required, normal;
    required, normal, filters := SortWords(words);
    group := None;
    if |required| > 0 || |normal| > 0 {
      var key := if |normal| > 0 then Join(normal, " ") else Join(required, " ");
      group := Some(WordGroup(required, normal, key));
    }
  }

  /** The loop over the file's groups. */
  method ProcessGroups(lists: seq<seq<string>>) returns (groups: seq<WordGroup>, filterWords: seq<string>)
    ensures (groups, filterWords) == RulesOf(lists)
  {
    groups, filterWords := [], [];
    var i := 0;
    while i < |lists|
      invariant 0 <= i <= |lists|
      invariant groups == RulesOf(lists[..i]).0
      invariant filterWords == RulesOf(lists[..i]).1
    {
      var words := lists[i];
      var group, filters := BuildGroup(words);
      assert lists[..i + 1][..i] == lists[..i];
      filterWords := filterWords + filters;
      if group.Some? {
        groups := groups + [group.value];
      }
      i := i + 1;
    }
    assert lists[..i] == lists;
  }

  /** The words of every group, group by group. */
  method CollectWordLists(texts: seq<string>) returns (lists: seq<seq<string>>)
    ensures lists == WordLists(texts)
  {
    lists := [];
    var i := 0;
    while i < |texts|
      invariant 0 <= i <= |texts|
      invariant lists == WordLists(texts[..i])
    {
      var words := CollectNonBlank(Split(texts[i], "\n"));
      WordListsSnoc(texts, i);
      lists := lists + [words];
      i := i + 1;
    }
    assert texts[..i] == texts;
  }

  /** One group text more is one word list more. */
  lemma WordListsSnoc(texts: seq<string>, i: nat)
    requires i < |texts|
    ensures WordLists(texts[..i + 1]) == WordLists(texts[..i]) + [GroupWords(texts[i])]
  {
    var a := WordLists(texts[..i + 1]);
    var b := WordLists(texts[..i]) + [GroupWords(texts[i])];
    assert |a| == |b|;
    forall j | 0 <= j < |a|
      ensures a[j] == b[j]
    {
      assert texts[..i + 1][j] == texts[j];
      if j < i {
        assert texts[..i][j] == texts[j];
      }
    }
  }

  /** `load_frequency_words` on the file's text. */
  method LoadFrequencyWords(content: string) returns (groups: seq<WordGroup>, filterWords: seq<string>)
    ensures (groups, filterWords) == FrequencyRules(content)
    ensures forall g :: g in groups ==> |g.required| > 0 || |g.normal| > 0
  {
    var texts := CollectNonBlank(Split(content, "\n\n"));
    var lists := CollectWordLists(texts);
    groups, filterWords := ProcessGroups(lists);
    EmittedGroupsHaveWords(WordLists(texts));
  }
}
