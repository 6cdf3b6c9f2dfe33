/** The host's game-settings panel (components/game/GameSettings.tsx): an
    editable list of categories, a round count chosen on a 1-10 slider, three
    quick category sets, and the start request. The list never holds the same
    category twice. */
module GameSettings {
  import opened GameTypes
  import Seqs
  import Text

  datatype Settings = Settings(categories: seq<string>, newCategory: string, totalRounds: int)

  /** A game needs at least this many categories. */
  const MIN_CATEGORIES: nat := 3
  const MIN_ROUNDS: int := 1
  const MAX_ROUNDS: int := 10
  const DEFAULT_ROUNDS: int := 5

  /** The panel as first shown: the first five default categories, an empty
      input, five rounds. */
  const INITIAL := Settings(DEFAULT_CATEGORIES[..5], "", DEFAULT_ROUNDS)

  const CLASSIC: seq<string> := ["Name", "Animal", "Country", "Food", "Object"]
  const EXTENDED: seq<string> := ["Name", "Animal", "Country", "Food", "Object", "Color", "Movie", "Profession"]
  const ENTERTAINMENT: seq<string> := ["Movie", "Song", "Actor", "Director", "TV Show"]

  datatype QuickSet = Classic | Extended | Entertainment

  function QuickSetCategories(q: QuickSet): seq<string> {
    match q
    case Classic => CLASSIC
    case Extended => EXTENDED
    case Entertainment => ENTERTAINMENT
  }

  /** What the panel keeps true: distinct categories and a round count within
      the slider's range. */
  ghost predicate Valid(st: Settings) {
    Seqs.NoDuplicates(st.categories) && MIN_ROUNDS <= st.totalRounds <= MAX_ROUNDS
  }

  /** Typing into the category input. */
  function SetNewCategory(st: Settings, text: string): (r: Settings)
    ensures r.newCategory == text
    ensures r.(newCategory := st.newCategory) == st
  {
    st.(newCategory := text)
  }

  /** `handleAddCategory`: the trimmed input is appended and the input cleared
      when it is non-empty and not listed yet; otherwise nothing changes. */
  function AddCategory(st: Settings): (r: Settings)
    ensures r.totalRounds == st.totalRounds
    ensures var t := Text.Trim(st.newCategory);
      t != "" && t !in st.categories ==>
        && |r.categories| == |st.categories| + 1
        && r.categories[..|st.categories|] == st.categories
        && r.categories[|st.categories|] == t
        && r.newCategory == ""
    ensures var t := Text.Trim(st.newCategory);
      t == "" || t in st.categories ==> r == st
  {
    var t := Text.Trim(st.newCategory);
    if t != "" && t !in st.categories then
      st.(categories := st.categories + [t], newCategory := "")
    else st
  }

  /** `handleRemoveCategory`: every occurrence of the category goes; the
      others stay in their order. */
  function RemoveCategory(st: Settings, c: string): (r: Settings)
    ensures r == st.(categories := r.categories)
    ensures c !in r.categories
    ensures forall x :: x in r.categories <==> x in st.categories && x != c
    ensures |r.categories| <= |st.categories|
    ensures forall x :: x != c ==> multiset(r.categories)[x] == multiset(st.categories)[x]
  {
    var keep := (x: string) => x != c;
    forall x | x != c
      ensures multiset(Seqs.Filter(st.categories, keep))[x] == multiset(st.categories)[x]
    {
      Seqs.FilterCounts(st.categories, keep, x);
    }
    st.(categories := Seqs.Filter(st.categories, keep))
  }

  /** The value the range input reports: the browser keeps a range control's
      value between its `min` and `max`. */
  function SetTotalRounds(st: Settings, slider: int): (r: Settings)
    ensures r == st.(totalRounds := r.totalRounds)
    ensures MIN_ROUNDS <= r.totalRounds <= MAX_ROUNDS
    ensures MIN_ROUNDS <= slider <= MAX_ROUNDS ==> r.totalRounds == slider
  {
    st.(totalRounds := if slider < MIN_ROUNDS then MIN_ROUNDS else if slider > MAX_ROUNDS then MAX_ROUNDS else slider)
  }

  /** A quick-set button replaces the whole list with one that is free of
      duplicates and long enough to start a game; the input and the round
      count stay. */
  function ApplyQuickSet(st: Settings, q: QuickSet): (r: Settings)
    ensures r.newCategory == st.newCategory && r.totalRounds == st.totalRounds
    ensures Seqs.NoDuplicates(r.categories)
    ensures Start(r).Some?
    ensures Valid(st) ==> Valid(r)
  {
    QuickSetsAreValid(q);
    st.(categories := QuickSetCategories(q))
  }

  /** `handleStart`: the start request carries the categories and round count,
      and is made only when there are at least three categories. */
  function Start(st: Settings): (r: Option<(seq<string>, int)>)
    ensures r.Some? <==> |st.categories| >= MIN_CATEGORIES
    ensures r.Some? ==> r.value == (st.categories, st.totalRounds)
  {
    if |st.categories| >= MIN_CATEGORIES then Some((st.categories, st.totalRounds)) else None
  }

  /** The first panel is valid and could start a game at once. */
  lemma InitialIsValid()
    ensures Valid(INITIAL)
    ensures INITIAL.categories == ["Name", "Animal", "Country/City", "Food", "Object"]
    ensures Start(INITIAL).Some?
  {
  }

  /** Every quick set is duplicate-free and large enough to start. */
  lemma QuickSetsAreValid(q: QuickSet)
    ensures Seqs.NoDuplicates(QuickSetCategories(q))
    ensures |QuickSetCategories(q)| >= MIN_CATEGORIES
  {
  }

  /** Adding keeps the categories distinct. */
  lemma AddCategoryKeepsValid(st: Settings)
    requires Valid(st)
    ensures Valid(AddCategory(st))
  {
    var r := AddCategory(st);
    var t := Text.Trim(st.newCategory);
    if t != "" && t !in st.categories {
      var cs := r.categories;
      forall i, j | 0 <= i < j < |cs| ensures cs[i] != cs[j] {
        if j == |st.categories| {
          assert cs[i] == st.categories[i];
        } else {
          assert cs[i] == st.categories[i] && cs[j] == st.categories[j];
        }
      }
    }
  }

  /** Removing keeps the categories distinct. */
  lemma RemoveCategoryKeepsValid(st: Settings, c: string)
    requires Valid(st)
    ensures Valid(RemoveCategory(st, c))
  {
    Seqs.FilterNoDuplicates(st.categories, (x: string) => x != c);
  }

  /** Removal on a list split in two is removal on each part, concatenated:
      the categories that stay keep their relative order. */
  lemma RemoveCategoryKeepsOrder(st: Settings, c: string, front: seq<string>, back: seq<string>)
    requires st.categories == front + back
    ensures RemoveCategory(st, c).categories
      == RemoveCategory(st.(categories := front), c).categories + RemoveCategory(st.(categories := back), c).categories
  {
    Seqs.FilterAppend(front, back, (x: string) => x != c);
  }

  /** Removing a category that was just added restores the list. */
  lemma RemoveUndoesAdd(st: Settings)
    requires Text.Trim(st.newCategory) != "" && Text.Trim(st.newCategory) !in st.categories
    ensures RemoveCategory(AddCategory(st), Text.Trim(st.newCategory)).categories == st.categories
  {
    var t := Text.Trim(st.newCategory);
    var keep := (x: string) => x != t;
    var cs := st.categories;
    assert AddCategory(st).categories == cs + [t];
    forall i | 0 <= i < |cs| ensures keep(cs[i]) {
      assert cs[i] in cs;
    }
    Seqs.FilterAppend(cs, [t], keep);
    Seqs.FilterKeepsAll(cs, keep);
    assert Seqs.Filter([t], keep) == [];
  }

  /** Adding text whose trimmed form is already listed changes nothing, so
      pressing Add twice with the same text adds it once. */
  lemma AddCategoryTwice(st: Settings, text: string)
    ensures var once := AddCategory(SetNewCategory(st, text));
      AddCategory(SetNewCategory(once, text)).categories == once.categories
  {
    var once := AddCategory(SetNewCategory(st, text));
    var t := Text.Trim(text);
    if t != "" && t !in st.categories {
      assert once.categories[|st.categories|] == t;
      assert t in once.categories;
    }
  }

  /** One user edit of the panel. */
  datatype Edit =
    | Type(text: string)
    | Add
    | Remove(c: string)
    | Slide(value: int)
    | Quick(q: QuickSet)

  function ApplyEdit(st: Settings, e: Edit): Settings {
    match e
    case Type(text) => SetNewCategory(st, text)
    case Add => AddCategory(st)
    case Remove(c) => RemoveCategory(st, c)
    case Slide(v) => SetTotalRounds(st, v)
    case Quick(q) => ApplyQuickSet(st, q)
  }

  function ApplyEdits(st: Settings, es: seq<Edit>): Settings
    decreases |es|
  {
    if |es| == 0 then st else ApplyEdits(ApplyEdit(st, es[0]), es[1..])
  }

  /** Whatever the host does, starting from the first panel, the categories
      stay distinct and the round count stays within 1-10; a start request
      then carries at least three distinct categories. */
  lemma {:induction false} EditsKeepValid(st: Settings, es: seq<Edit>)
    requires Valid(st)
    ensures Valid(ApplyEdits(st, es))
    ensures var r := Start(ApplyEdits(st, es));
      r.Some? ==>
        && |r.value.0| >= MIN_CATEGORIES
        && Seqs.NoDuplicates(r.value.0)
        && MIN_ROUNDS <= r.value.1 <= MAX_ROUNDS
    decreases |es|
  {
    if |es| > 0 {
      var next := ApplyEdit(st, es[0]);
      match es[0] {
        case Type(text) =>
        case Add => AddCategoryKeepsValid(st);
        case Remove(c) => RemoveCategoryKeepsValid(st, c);
        case Slide(v) =>
        case Quick(q) => QuickSetsAreValid(q);
      }
      EditsKeepValid(next, es[1..]);
    }
  }
}
