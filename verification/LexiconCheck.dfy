/** Which pronunciations a model's phone inventory drops, and what that leaves of each word. */
module LexiconCheck {
  import opened SortedStrings

  // Words: READ(2) is a spelling of READ.

  predicate Digits(s: string) {
    s != "" && forall i | 0 <= i < |s| :: '0' <= s[i] <= '9'
  }

  /** The index of the last opening parenthesis, or the length. */
  function LastParen(word: string): (n: nat)
    ensures n <= |word|
    ensures n < |word| ==> word[n] == '('
    ensures forall i | (if n == |word| then 0 else n + 1) <= i < |word| :: word[i] != '('
  {
    if word == "" then 0
    else if word[|word|-1] == '(' then |word| - 1
    else
      var n := LastParen(word[..|word|-1]);
      if n == |word| - 1 then |word| else n
  }

  function BaseWord(word: string): string {
    if word != "" && word[|word|-1] == ')' && '(' in word then
      var n := LastParen(word);
      if n + 1 < |word| && Digits(word[n+1..|word|-1]) then word[..n] else word
    else word
  }

  lemma StripSuffix(word: string, base: string, digits: string)
    requires Digits(digits) && word == base + "(" + digits + ")"
    ensures BaseWord(word) == base
  {
    hide LastParen;
    var n := |base|;
    assert word[n] == '(';
    forall i | n < i < |word| ensures word[i] != '(' {
      if i < |word| - 1 {
        assert word[i] == digits[i - n - 1];
      }
    }
    assert LastParen(word) == n;
    assert word[n+1..|word|-1] == digits && word[..n] == base;
  }

  /** The base is what stands before a numeric suffix, and the word itself exactly when it has none. */
  lemma BaseWordMeaning(word: string, base: string, digits: string)
    ensures Digits(digits) && word == base + "(" + digits + ")" ==> BaseWord(word) == base
    ensures BaseWord(word) != word ==> exists ds :: Digits(ds) && word == BaseWord(word) + "(" + ds + ")"
  {
    if Digits(digits) && word == base + "(" + digits + ")" {
      StripSuffix(word, base, digits);
    }
    hide LastParen;
    if BaseWord(word) != word {
      var n := LastParen(word);
      assert word == word[..n] + "(" + word[n+1..|word|-1] + ")";
    }
  }

  // Lines, in file order.

  datatype Line = Line(word: string, phones: seq<string>)
  type Source = seq<Line>

  /** A line with the number of its source and the phones it lacks. */
  datatype Item = Item(source: nat, word: string, missing: seq<string>) {
    predicate Kept() { missing == [] }
    predicate Unsuffixed() { BaseWord(word) == word }
  }

  ghost function Missing(phones: seq<string>, inventory: set<string>): seq<string> {
    Sort(set p | p in phones && p !in inventory)
  }

  ghost function ItemsOf(s: Source, source: nat, inventory: set<string>): seq<Item> {
    if s == [] then []
    else
      var line := s[|s|-1];
      ItemsOf(s[..|s|-1], source, inventory) + [Item(source, line.word, Missing(line.phones, inventory))]
  }

  ghost function Items(sources: seq<Source>, inventory: set<string>): seq<Item> {
    if sources == [] then []
    else Items(sources[..|sources|-1], inventory) + ItemsOf(sources[|sources|-1], |sources| - 1, inventory)
  }

  ghost function Dropped(h: seq<Item>): seq<Item> {
    if h == [] then []
    else Dropped(h[..|h|-1]) + if h[|h|-1].Kept() then [] else [h[|h|-1]]
  }

  // The meaning of the report.

  predicate KeptLine(x: Item, base: string) {
    BaseWord(x.word) == base && x.Kept()
  }

  predicate KeptVariant(x: Item, base: string) {
    KeptLine(x, base) && !x.Unsuffixed()
  }

  predicate KeptBase(x: Item, base: string) {
    KeptLine(x, base) && x.Unsuffixed()
  }

  predicate DroppedLine(x: Item, base: string) {
    BaseWord(x.word) == base && !x.Kept()
  }

  predicate DroppedBase(x: Item, base: string, source: nat) {
    DroppedLine(x, base) && x.Unsuffixed() && x.source == source
  }

  /** Some line of h satisfies p for the word. */
  ghost predicate Holds(h: seq<Item>, base: string, p: (Item, string) -> bool) {
    exists k :: 0 <= k < |h| && p(h[k], base)
  }

  /** The unsuffixed spelling was dropped from this source. */
  ghost predicate BaseDropped(h: seq<Item>, base: string, source: nat) {
    exists k :: 0 <= k < |h| && DroppedBase(h[k], base, source)
  }

  /** Line k makes a surviving alternative the base: the first of its word over all files, after a dropped base in its own. */
  ghost predicate ResolvedAt(h: seq<Item>, base: string, k: nat) {
    && k < |h| && KeptVariant(h[k], base)
    && !Holds(h[..k], base, KeptVariant) && !Holds(h[..k], base, KeptBase)
    && BaseDropped(h[..k], base, h[k].source)
  }

  ghost predicate Resolved(h: seq<Item>, base: string) {
    exists k :: ResolvedAt(h, base, k)
  }

  /** Some line of the word is dropped, and none survives. */
  ghost predicate Unresolvable(h: seq<Item>, base: string) {
    Holds(h, base, DroppedLine) && !Holds(h, base, KeptLine)
  }

  // The pass.

  /** s holds exactly the words that p holds of on some line. */
  ghost predicate Collects(s: set<string>, h: seq<Item>, p: (Item, string) -> bool) {
    forall b :: b in s <==> Holds(h, b, p)
  }

  ghost predicate CollectsDropped(s: set<string>, h: seq<Item>, source: nat) {
    forall b :: b in s <==> BaseDropped(h, b, source)
  }

  lemma CollectDropped(s: set<string>, h: seq<Item>, x: Item)
    requires CollectsDropped(s, h, x.source)
    ensures var b := BaseWord(x.word);
            CollectsDropped(if DroppedBase(x, b, x.source) then s + {b} else s, h + [x], x.source)
  {
    var g := h + [x];
    forall b ensures BaseDropped(g, b, x.source) <==> BaseDropped(h, b, x.source) || DroppedBase(x, b, x.source) {
      if BaseDropped(h, b, x.source) {
        var k :| 0 <= k < |h| && DroppedBase(h[k], b, x.source);
        assert g[k] == h[k];
      }
      assert g[|h|] == x;
    }
  }

  lemma Collect(s: set<string>, h: seq<Item>, x: Item, p: (Item, string) -> bool)
    requires Collects(s, h, p) && forall b | p(x, b) :: b == BaseWord(x.word)
    ensures Collects(if p(x, BaseWord(x.word)) then s + {BaseWord(x.word)} else s, h + [x], p)
  {
    var g := h + [x];
    forall b ensures Holds(g, b, p) <==> Holds(h, b, p) || p(x, b) {
      if Holds(h, b, p) {
        var k :| 0 <= k < |h| && p(h[k], b);
        assert g[k] == h[k];
      }
      assert g[|h|] == x;
    }
  }

  lemma AppendResolved(h: seq<Item>, x: Item, b: string)
    ensures Resolved(h + [x], b) <==> Resolved(h, b) || ResolvedAt(h + [x], b, |h|)
  {
    var g := h + [x];
    forall k: nat | k < |h| ensures ResolvedAt(g, b, k) <==> ResolvedAt(h, b, k) {
      assert g[..k] == h[..k] && g[k] == h[k];
    }
  }

  lemma StepResolved(h: seq<Item>, x: Item, baseKept: set<string>, variantKept: set<string>, baseDropped: set<string>, resolved: set<string>)
    requires Collects(baseKept, h, KeptBase) && Collects(variantKept, h, KeptVariant)
    requires CollectsDropped(baseDropped, h, x.source)
    requires forall b :: b in resolved <==> Resolved(h, b)
    ensures var b := BaseWord(x.word);
            var now := KeptVariant(x, b) && b !in variantKept && b in baseDropped && b !in baseKept;
            forall c :: c in (if now then resolved + {b} else resolved) <==> Resolved(h + [x], c)
  {
    var g := h + [x];
    assert g[..|h|] == h && g[|h|] == x;
    forall c ensures Resolved(g, c) <==> c in resolved || ResolvedAt(g, c, |h|) {
      AppendResolved(h, x, c);
    }
  }

  /** What the sets hold between two lines; n sources have been opened. */
  ghost predicate Pass(h: seq<Item>, n: nat, baseKept: set<string>, variantKept: set<string>, anyKept: set<string>, resolved: set<string>) {
    && (forall k | 0 <= k < |h| :: h[k].source < n)
    && Collects(baseKept, h, KeptBase) && Collects(variantKept, h, KeptVariant) && Collects(anyKept, h, KeptLine)
    && (forall b :: b in resolved <==> Resolved(h, b))
  }

  lemma ReadLine(h: seq<Item>, x: Item, baseKept: set<string>, variantKept: set<string>, anyKept: set<string>,
                 baseDropped: set<string>, resolved: set<string>)
    requires Pass(h, x.source + 1, baseKept, variantKept, anyKept, resolved) && CollectsDropped(baseDropped, h, x.source)
    ensures var b := BaseWord(x.word);
            var now := KeptVariant(x, b) && b !in variantKept && b in baseDropped && b !in baseKept;
            && Pass(h + [x], x.source + 1,
                    if KeptBase(x, b) then baseKept + {b} else baseKept,
                    if KeptVariant(x, b) then variantKept + {b} else variantKept,
                    if KeptLine(x, b) then anyKept + {b} else anyKept,
                    if now then resolved + {b} else resolved)
            && CollectsDropped(if DroppedBase(x, b, x.source) then baseDropped + {b} else baseDropped, h + [x], x.source)
            && Dropped(h + [x]) == Dropped(h) + if x.Kept() then [] else [x]
  {
    Collect(baseKept, h, x, KeptBase);
    Collect(variantKept, h, x, KeptVariant);
    Collect(anyKept, h, x, KeptLine);
    CollectDropped(baseDropped, h, x);
    StepResolved(h, x, baseKept, variantKept, baseDropped, resolved);
    assert (h + [x])[..|h|] == h;
  }

  lemma ReadItem(sources: seq<Source>, inventory: set<string>, s: nat, i: nat)
    requires s < |sources| && i < |sources[s]|
    ensures var line := sources[s][i];
            ItemsOf(sources[s][..i+1], s, inventory) ==
            ItemsOf(sources[s][..i], s, inventory) + [Item(s, line.word, Missing(line.phones, inventory))]
  {
    assert sources[s][..i+1][..i] == sources[s][..i];
  }

  lemma ReadSource(sources: seq<Source>, inventory: set<string>, s: nat)
    requires s < |sources|
    ensures Items(sources[..s+1], inventory) == Items(sources[..s], inventory) + ItemsOf(sources[s][..|sources[s]|], s, inventory)
    ensures Items(sources[..s], inventory) + ItemsOf(sources[s][..0], s, inventory) == Items(sources[..s], inventory)
  {
    assert sources[..s+1][..s] == sources[..s];
    assert sources[s][..|sources[s]|] == sources[s];
  }

  lemma OpenSource(h: seq<Item>, s: nat, baseKept: set<string>, variantKept: set<string>, anyKept: set<string>, resolved: set<string>)
    requires Pass(h, s, baseKept, variantKept, anyKept, resolved)
    ensures Pass(h, s + 1, baseKept, variantKept, anyKept, resolved) && CollectsDropped({}, h, s)
  {
  }

  lemma {:induction false} DroppedWords(h: seq<Item>, b: string)
    ensures Holds(h, b, DroppedLine) <==> exists k :: 0 <= k < |Dropped(h)| && BaseWord(Dropped(h)[k].word) == b
  {
    if h != [] {
      var prefix, x := h[..|h|-1], h[|h|-1];
      DroppedWords(prefix, b);
      var old_, now := Dropped(prefix), Dropped(h);
      assert forall k | 0 <= k < |old_| :: now[k] == old_[k];
      assert Holds(h, b, DroppedLine) <==> Holds(prefix, b, DroppedLine) || DroppedLine(x, b) by {
        if Holds(prefix, b, DroppedLine) {
          var k :| 0 <= k < |prefix| && DroppedLine(prefix[k], b);
          assert h[k] == prefix[k];
        }
      }
      if !x.Kept() {
        assert now[|old_|] == x;
      }
    }
  }

  method Affected(entries: seq<Item>) returns (words: set<string>)
    ensures forall b :: b in words <==> exists k :: 0 <= k < |entries| && BaseWord(entries[k].word) == b
  {
    words := {};
    for i := 0 to |entries|
      invariant forall b :: b in words <==> exists k :: 0 <= k < i && BaseWord(entries[k].word) == b
    {
      words := words + {BaseWord(entries[i].word)};
    }
  }

  datatype Report = Report(entries: seq<Item>, unresolvable: set<string>, resolved: set<string>)

  method CheckModelLexicon(inventory: set<string>, sources: seq<Source>) returns (report: Report)
    ensures var h := Items(sources, inventory);
            && report.entries == Dropped(h)
            && (forall b :: b in report.unresolvable <==> Unresolvable(h, b))
            && (forall b :: b in report.resolved <==> Resolved(h, b))
            && report.resolved !! report.unresolvable
  {
    hide Items, ItemsOf, Dropped, Pass, Collects, CollectsDropped, Holds, Resolved, BaseWord, Missing;
    var entries: seq<Item> := [];
    var baseKept: set<string>, variantKept: set<string>, anyKept: set<string>, resolved: set<string> := {}, {}, {}, {};
    ghost var h: seq<Item> := [];
    NothingRead(sources, inventory);
    for s := 0 to |sources|
      invariant h == Items(sources[..s], inventory) && entries == Dropped(h)
      invariant Pass(h, s, baseKept, variantKept, anyKept, resolved)
    {
      // Dropped bases are remembered for one source at a time.
      var baseDropped: set<string> := {};
      OpenSource(h, s, baseKept, variantKept, anyKept, resolved);
      ReadSource(sources, inventory, s);
      for i := 0 to |sources[s]|
        invariant h == Items(sources[..s], inventory) + ItemsOf(sources[s][..i], s, inventory) && entries == Dropped(h)
        invariant Pass(h, s + 1, baseKept, variantKept, anyKept, resolved) && CollectsDropped(baseDropped, h, s)
      {
        var word, phones := sources[s][i].word, sources[s][i].phones;
        var base := BaseWord(word);
        var unsuffixed := word == base;
        var missing := MissingPhones(phones, inventory);
        ghost var x := Item(s, word, missing);
        ReadItem(sources, inventory, s, i);
        ReadLine(h, x, baseKept, variantKept, anyKept, baseDropped, resolved);
        h := h + [x];
        if missing != [] {
          entries := entries + [Item(s, word, missing)];
          if unsuffixed {
            baseDropped := baseDropped + {base};
          }
          continue;
        }
        anyKept := anyKept + {base};
        if unsuffixed {
          baseKept := baseKept + {base};
        } else {
          AgainKept(variantKept, base);
          if base !in variantKept {
            variantKept := variantKept + {base};
            if base in baseDropped && base !in baseKept {
              resolved := resolved + {base};
            }
          }
        }
      }
    }
    assert sources[..|sources|] == sources;
    var affected := Affected(entries);
    var unresolvable := set b | b in affected && b !in anyKept;
    Conclude(h, baseKept, variantKept, anyKept, resolved, |sources|);
    report := Report(entries, unresolvable, resolved);
  }

  method MissingPhones(phones: seq<string>, inventory: set<string>) returns (missing: seq<string>)
    ensures missing == Missing(phones, inventory)
  {
    missing := SortedKeys(set p | p in phones && p !in inventory);
  }

  lemma AgainKept(s: set<string>, b: string)
    ensures b in s ==> s + {b} == s
  {
  }

  lemma NothingRead(sources: seq<Source>, inventory: set<string>)
    ensures Items(sources[..0], inventory) == [] && Dropped([]) == [] && Pass([], 0, {}, {}, {}, {})
  {
  }

  lemma Conclude(h: seq<Item>, baseKept: set<string>, variantKept: set<string>, anyKept: set<string>, resolved: set<string>, n: nat)
    requires Pass(h, n, baseKept, variantKept, anyKept, resolved)
    ensures forall b :: b in resolved <==> Resolved(h, b)
    ensures forall b :: Unresolvable(h, b) <==>
                          (exists k :: 0 <= k < |Dropped(h)| && BaseWord(Dropped(h)[k].word) == b) && b !in anyKept
    ensures forall b | b in resolved :: b in anyKept
  {
    forall b ensures Unresolvable(h, b) <==>
                       (exists k :: 0 <= k < |Dropped(h)| && BaseWord(Dropped(h)[k].word) == b) && b !in anyKept
    {
      DroppedWords(h, b);
    }
    forall b | b in resolved ensures b in anyKept {
      var k: nat :| ResolvedAt(h, b, k);
      assert KeptLine(h[k], b);
    }
  }

  // What the documentation says differs: any alternative that survives after its base was dropped from the same file.

  ghost predicate Documented(h: seq<Item>, base: string) {
    exists j, k :: 0 <= j < k < |h| && DroppedBase(h[j], base, h[k].source) && KeptVariant(h[k], base)
  }

  lemma ResolvedIsDocumented(h: seq<Item>, base: string)
    requires Resolved(h, base)
    ensures Documented(h, base)
  {
  }

  /** Line k is an alternative that the documentation means. */
  ghost predicate Replaces(h: seq<Item>, base: string, k: nat) {
    k < |h| && KeptVariant(h[k], base) && BaseDropped(h[..k], base, h[k].source)
  }

  /** Some spelling of the word, base or alternative, from whichever file, survives before every such alternative. */
  ghost predicate Hidden(h: seq<Item>, base: string) {
    exists i: nat :: i < |h| && KeptLine(h[i], base) && !ReplacedBy(h, base, i)
  }

  ghost predicate ReplacedBy(h: seq<Item>, base: string, i: nat) {
    exists k: nat :: k <= i && Replaces(h, base, k)
  }

  lemma {:induction false} FirstReplacement(h: seq<Item>, base: string, k: nat) returns (m: nat)
    requires Replaces(h, base, k)
    ensures m <= k && Replaces(h, base, m) && forall i: nat | i < m :: !Replaces(h, base, i)
    decreases k
  {
    m := k;
    if i: nat :| i < k && Replaces(h, base, i) {
      m := FirstReplacement(h, base, i);
    }
  }

  lemma ResolvedIsNotHidden(h: seq<Item>, base: string, k: nat)
    requires ResolvedAt(h, base, k)
    ensures !Hidden(h, base)
  {
    hide KeptVariant, KeptBase, BaseDropped;
    assert Replaces(h, base, k);
    forall i: nat | i < |h| && KeptLine(h[i], base) ensures ReplacedBy(h, base, i) {
      if i < k {
        SurvivorIsEither(h, base, i, k);
      }
    }
  }

  lemma SurvivorIsEither(h: seq<Item>, base: string, i: nat, k: nat)
    requires i < k < |h| && KeptLine(h[i], base)
    ensures Holds(h[..k], base, KeptVariant) || Holds(h[..k], base, KeptBase)
  {
    assert h[..k][i] == h[i];
  }

  lemma DocumentedReplaces(h: seq<Item>, base: string) returns (k: nat)
    requires Documented(h, base)
    ensures Replaces(h, base, k)
  {
    var j, n :| 0 <= j < n < |h| && DroppedBase(h[j], base, h[n].source) && KeptVariant(h[n], base);
    assert h[..n][j] == h[j];
    k := n;
  }

  lemma NothingBefore(h: seq<Item>, base: string, m: nat)
    requires m <= |h| && forall i: nat | i < m :: !KeptLine(h[i], base)
    ensures !Holds(h[..m], base, KeptVariant) && !Holds(h[..m], base, KeptBase)
  {
  }

  /** A documented word is reported exactly when it is not hidden. */
  lemma DocumentedIsResolvedIff(h: seq<Item>, base: string)
    ensures Resolved(h, base) <==> Documented(h, base) && !Hidden(h, base)
  {
    hide KeptVariant, KeptBase, KeptLine, BaseDropped, Documented, Holds, DroppedBase;
    if Resolved(h, base) {
      var k: nat :| ResolvedAt(h, base, k);
      ResolvedIsDocumented(h, base);
      ResolvedIsNotHidden(h, base, k);
    }
    if Documented(h, base) && !Hidden(h, base) {
      var k := DocumentedReplaces(h, base);
      var m := FirstReplacement(h, base, k);
      forall i: nat | i < m ensures !KeptLine(h[i], base) {
        assert !ReplacedBy(h, base, i);
      }
      NothingBefore(h, base, m);
      assert ResolvedAt(h, base, m);
    }
  }

  /** An alternative that survives in the main dictionary hides the one that replaces a dropped base in the filler dictionary. */
  lemma HiddenAlternative()
    ensures var sources := [[Line("A(2)", ["AH"])], [Line("A", ["X"]), Line("A(3)", ["AH"])]];
            var h := Items(sources, {"AH"});
            Documented(h, "A") && Hidden(h, "A") && !Resolved(h, "A")
  {
    hide BaseWord, Resolved, Hidden;
    var sources := [[Line("A(2)", ["AH"])], [Line("A", ["X"]), Line("A(3)", ["AH"])]];
    var h := Items(sources, {"AH"});
    ReadExample(sources);
    SpellingsOfA();
    assert KeptVariant(h[0], "A") && DroppedBase(h[1], "A", 1) && KeptVariant(h[2], "A");
    FirstHides(h, "A");
    DocumentedIsResolvedIff(h, "A");
  }

  lemma FirstHides(h: seq<Item>, base: string)
    requires h != [] && KeptVariant(h[0], base)
    ensures Hidden(h, base)
  {
    assert h[..0] == [];
    assert !ReplacedBy(h, base, 0);
  }

  lemma ReadExample(sources: seq<Source>)
    requires sources == [[Line("A(2)", ["AH"])], [Line("A", ["X"]), Line("A(3)", ["AH"])]]
    ensures |Items(sources, {"AH"})| == 3
    ensures var h := Items(sources, {"AH"});
            h[0].source == 0 && h[1].source == 1 && h[2].source == 1
            && h[0].word == "A(2)" && h[1].word == "A" && h[2].word == "A(3)"
            && h[0].Kept() && !h[1].Kept() && h[2].Kept()
  {
    MissingNone(["AH"], {"AH"}, "X");
    MissingNone(["X"], {"AH"}, "X");
    ReadSource(sources, {"AH"}, 0);
    ReadSource(sources, {"AH"}, 1);
    ReadItem(sources, {"AH"}, 0, 0);
    ReadItem(sources, {"AH"}, 1, 0);
    ReadItem(sources, {"AH"}, 1, 1);
    assert sources[..0] == [] && sources[..2] == sources;
  }

  /** The missing phones are those of the line that the inventory lacks, in order and once each. */
  lemma MissingMeans(phones: seq<string>, inventory: set<string>, p: string)
    ensures p in Missing(phones, inventory) <==> p in phones && p !in inventory
    ensures forall i, j | 0 <= i < j < |Missing(phones, inventory)| ::
              Before(Missing(phones, inventory)[i], Missing(phones, inventory)[j])
              && Missing(phones, inventory)[i] != Missing(phones, inventory)[j]
  {
    var lacking := set q | q in phones && q !in inventory;
    SortLists(lacking);
    forall i, j | 0 <= i < j < |Sort(lacking)| ensures Sort(lacking)[i] != Sort(lacking)[j] {
      BeforeIsTotal(Sort(lacking)[i], Sort(lacking)[j]);
    }
  }

  lemma MissingNone(phones: seq<string>, inventory: set<string>, p: string)
    ensures (forall q | q in phones :: q in inventory) ==> Missing(phones, inventory) == []
    ensures p in phones && p !in inventory ==> Missing(phones, inventory) != []
  {
    var lacking := set q | q in phones && q !in inventory;
    SortLists(lacking);
    assert p in phones && p !in inventory ==> p in lacking;
  }

  lemma SpellingsOfA()
    ensures BaseWord("A(2)") == "A" && BaseWord("A(3)") == "A" && BaseWord("A") == "A"
  {
    assert "A(2)" == "A" + "(" + "2" + ")" && "A(3)" == "A" + "(" + "3" + ")";
    BaseWordMeaning("A(2)", "A", "2");
    BaseWordMeaning("A(3)", "A", "3");
  }
}
