/** The class string the hook derives from its three flags, built the way the `classnames`
    package joins its arguments: the truthy names, separated by single spaces. */
module ClassNames {

  /** The names joined with one space between neighbours. */
  function Join(names: seq<string>): string
  {
    if |names| == 0 then ""
    else if |names| == 1 then names[0]
    else names[0] + " " + Join(names[1..])
  }

  /** The string cut at every space; the inverse of `Join` on names without spaces. */
  function Split(s: string): (words: seq<string>)
    ensures |words| >= 1
    decreases |s|
  {
    if s == [] then [""]
    else
      var rest := Split(s[1..]);
      if s[0] == ' ' then [""] + rest else [[s[0]] + rest[0]] + rest[1..]
  }

  /** The names whose condition holds, in the order given. */
  function Selected(conditional: seq<(string, bool)>): (names: seq<string>)
    ensures |names| <= |conditional|
  {
    if conditional == [] then []
    else (if conditional[0].1 then [conditional[0].0] else []) + Selected(conditional[1..])
  }

  /** No name is selected exactly when no flag is set. */
  lemma {:induction false} SelectedNone(conditional: seq<(string, bool)>)
    ensures Selected(conditional) == [] <==> forall i :: 0 <= i < |conditional| ==> !conditional[i].1
    decreases |conditional|
  {
    if conditional != [] {
      SelectedNone(conditional[1..]);
      assert forall i :: 0 < i < |conditional| ==> conditional[i] == conditional[1..][i - 1];
    }
  }

  /** `classNames(base, { name: flag, ... })`: an empty (falsy) base is skipped, and each
      name of the object is kept when its flag is true, in the object's key order. */
  function ClassNamesOf(base: string, conditional: seq<(string, bool)>): (s: string)
    ensures base != "" ==> |s| >= |base| && s[..|base|] == base
    ensures base == "" && (forall i :: 0 <= i < |conditional| ==> !conditional[i].1) ==> s == ""
  {
    SelectedNone(conditional);
    var names := (if base == "" then [] else [base]) + Selected(conditional);
    assert base != "" && |names| > 1 ==> Join(names) == base + (" " + Join(names[1..]));
    Join(names)
  }

  const Base := "cursor"
  const ClickedName := "cursor--clicked"
  const HiddenName := "cursor--hidden"
  const LinkHoveredName := "cursor--link-hovered"

  /** The hook's `className`. */
  function ClassName(clicked: bool, hidden: bool, linkHovered: bool): (s: string)
    ensures |s| >= |Base| && s[..|Base|] == Base
  {
    ClassNamesOf(Base, [(ClickedName, clicked), (HiddenName, hidden), (LinkHoveredName, linkHovered)])
  }

  /** A name without spaces is one word. */
  lemma {:induction false} SplitWord(t: string)
    requires ' ' !in t
    ensures Split(t) == [t]
    decreases |t|
  {
    if t != [] {
      assert t[0] != ' ';
      assert ' ' !in t[1..];
      SplitWord(t[1..]);
      assert [t[0]] + t[1..] == t;
    }
  }

  /** Cutting at a space splits the words of either side apart. */
  lemma {:induction false} SplitAtSpace(a: string, b: string)
    ensures Split(a + " " + b) == Split(a) + Split(b)
    decreases |a|
  {
    if a == [] {
      assert a + " " + b == " " + b;
      assert (" " + b)[1..] == b;
    } else {
      assert (a + " " + b)[0] == a[0];
      assert (a + " " + b)[1..] == a[1..] + " " + b;
      SplitAtSpace(a[1..], b);
      if a[0] != ' ' {
        assert [a[0]] + a[1..] == a;
      }
    }
  }

  /** Round trip: splitting a join of space-free names gives the names back. */
  lemma {:induction false} SplitJoin(names: seq<string>)
    requires |names| >= 1
    requires forall i :: 0 <= i < |names| ==> ' ' !in names[i]
    ensures Split(Join(names)) == names
    decreases |names|
  {
    if |names| == 1 {
      SplitWord(names[0]);
    } else {
      SplitWord(names[0]);
      SplitJoin(names[1..]);
      SplitAtSpace(names[0], Join(names[1..]));
      assert [names[0]] + names[1..] == names;
    }
  }

  /** The words of the class string: always `cursor` first, then each modifier whose flag is
      set, in the order clicked, hidden, link-hovered. */
  lemma ClassNameWords(clicked: bool, hidden: bool, linkHovered: bool)
    ensures Split(ClassName(clicked, hidden, linkHovered)) ==
      [Base]
      + (if clicked then [ClickedName] else [])
      + (if hidden then [HiddenName] else [])
      + (if linkHovered then [LinkHoveredName] else [])
  {
    var names := [Base]
      + (if clicked then [ClickedName] else [])
      + (if hidden then [HiddenName] else [])
      + (if linkHovered then [LinkHoveredName] else []);
    var conditional := [(ClickedName, clicked), (HiddenName, hidden), (LinkHoveredName, linkHovered)];
    assert Selected(conditional[2..]) == if linkHovered then [LinkHoveredName] else [];
    assert Selected(conditional[1..]) == (if hidden then [HiddenName] else []) + Selected(conditional[2..]);
    assert Selected(conditional) == (if clicked then [ClickedName] else []) + Selected(conditional[1..]);
    assert ([Base] + Selected(conditional)) == names;
    assert forall i :: 0 <= i < |names| ==> ' ' !in names[i];
    SplitJoin(names);
  }

  /** With no flag set the class string is `cursor` alone. */
  lemma ClassNameNoFlags()
    ensures ClassName(false, false, false) == Base
  {
    var conditional := [(ClickedName, false), (HiddenName, false), (LinkHoveredName, false)];
    assert Selected(conditional[2..]) == [];
    assert Selected(conditional[1..]) == Selected(conditional[2..]);
    assert Selected(conditional) == Selected(conditional[1..]);
    assert [Base] + Selected(conditional) == [Base];
  }

  /** Each modifier appears among the words exactly when its flag is set, and `cursor` always does. */
  lemma ClassNameFlags(clicked: bool, hidden: bool, linkHovered: bool)
    ensures Split(ClassName(clicked, hidden, linkHovered))[0] == Base
    ensures ClickedName in Split(ClassName(clicked, hidden, linkHovered)) <==> clicked
    ensures HiddenName in Split(ClassName(clicked, hidden, linkHovered)) <==> hidden
    ensures LinkHoveredName in Split(ClassName(clicked, hidden, linkHovered)) <==> linkHovered
    ensures |Split(ClassName(clicked, hidden, linkHovered))| ==
      1 + (if clicked then 1 else 0) + (if hidden then 1 else 0) + (if linkHovered then 1 else 0)
  {
    ClassNameWords(clicked, hidden, linkHovered);
  }

  /** Different flag combinations give different class strings: all eight are distinguishable. */
  lemma ClassNameInjective(c0: bool, h0: bool, l0: bool, c1: bool, h1: bool, l1: bool)
    requires ClassName(c0, h0, l0) == ClassName(c1, h1, l1)
    ensures c0 == c1 && h0 == h1 && l0 == l1
  {
    ClassNameFlags(c0, h0, l0);
    ClassNameFlags(c1, h1, l1);
  }
}
