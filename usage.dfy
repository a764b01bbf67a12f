/**
 * The help printer of usage.go. It works in three steps:
 *
 *  1. it groups the registered flags by help text, so that a shorthand
 *     and its long name (registered with the same text) make ONE row;
 *  2. it builds the list of groups sorted by name, inserting each group
 *     after a binary search, and measures the widest cell of each column;
 *  3. it writes one padded row per group.
 *
 * The flag set is given as the sequence `VisitAll` walks. Groups are
 * keyed by the help text itself: usage.go keys them by its SHA-256 digest,
 * which only stands in for the text. `flag.UnquoteUsage`, which derives
 * the type column and the shown help text from a flag, is a parameter.
 */
module Usage {
  import opened Strings

  /** What the flag set holds about one registered name. */
  datatype FlagInfo = FlagInfo(name: string, usage: string, defValue: string)

  /** The value of a `Flag` of usage.go: the first flag seen, and the names merged into it. */
  datatype Group = Group(flag: FlagInfo, name: string, shorthand: string)

  /**
   * `AddName`: a name shorter than the first-seen flag's name is the
   * shorthand; any other name becomes the canonical name, and the
   * first-seen name the shorthand. The comparison is with the first-seen
   * name, not with the current canonical one.
   */
  function AddNameTo(g: Group, n: string): (r: Group)
    ensures r.flag == g.flag
    ensures |n| < |g.flag.name| ==> r.name == g.name && r.shorthand == n
    ensures |n| >= |g.flag.name| ==> r.name == n && r.shorthand == g.flag.name
  {
    if |n| < |g.flag.name| then g.(shorthand := n) else g.(shorthand := g.flag.name, name := n)
  }

  /** `Flag`, the entry of the grouping map that `AddName` updates in place. */
  class Flag {
    const flag: FlagInfo
    var name: string
    var shorthand: string

    constructor (f: FlagInfo)
      ensures flag == f && name == f.name && shorthand == ""
    {
      flag := f;
      name := f.name;
      shorthand := "";
    }

    function View(): Group
      reads this
    {
      Group(flag, name, shorthand)
    }

    method AddName(n: string)
      modifies this
      ensures |n| < |flag.name| ==> name == old(name) && shorthand == n
      ensures |n| >= |flag.name| ==> name == n && shorthand == flag.name
      ensures View() == AddNameTo(old(View()), n)
    {
      if |n| < |flag.name| {
        shorthand := n;
      } else {
        shorthand := flag.name;
        name := n;
      }
    }
  }

  /** A shorter and a longer name with the same help text merge the same way in either order. */
  lemma {:induction false} AddNameEitherOrder(short: FlagInfo, long: FlagInfo)
    requires |short.name| < |long.name|
    ensures var g := AddNameTo(Group(short, short.name, ""), long.name);
      g.name == long.name && g.shorthand == short.name
    ensures var g := AddNameTo(Group(long, long.name, ""), short.name);
      g.name == long.name && g.shorthand == short.name
  {
    var g1 := AddNameTo(Group(short, short.name, ""), long.name);
    assert |long.name| >= |short.name|;
    var g2 := AddNameTo(Group(long, long.name, ""), short.name);
    assert g2.name == long.name;
  }

  // ---------------------------------------------------------------------
  // Step 1: grouping by help text.
  // ---------------------------------------------------------------------

  /** The grouping map after visiting `reg` in order. */
  function Grouped(reg: seq<FlagInfo>): (r: map<string, Group>)
    ensures reg != [] ==> reg[|reg| - 1].usage in r
    decreases |reg|
  {
    if reg == [] then map[]
    else
      var m := Grouped(reg[..|reg| - 1]);
      var f := reg[|reg| - 1];
      if f.usage in m then m[f.usage := AddNameTo(m[f.usage], f.name)]
      else m[f.usage := Group(f, f.name, "")]
  }

  /** One group per distinct help text. */
  lemma {:induction false} GroupedKeys(reg: seq<FlagInfo>)
    ensures Grouped(reg).Keys == set i | 0 <= i < |reg| :: reg[i].usage
    decreases |reg|
  {
    if reg != [] {
      var front := reg[..|reg| - 1];
      GroupedKeys(front);
      var all, before := set i | 0 <= i < |reg| :: reg[i].usage, set i | 0 <= i < |front| :: front[i].usage;
      forall i | 0 <= i < |reg| ensures reg[i].usage in before + {reg[|reg| - 1].usage} {
        if i < |front| {
          assert front[i] == reg[i];
        }
      }
      forall i | 0 <= i < |front| ensures front[i].usage in all {
        assert reg[i] == front[i];
      }
      assert all == before + {reg[|reg| - 1].usage};
    }
  }

  /** A member of the group with help text `u`. */
  predicate NameWithUsage(reg: seq<FlagInfo>, u: string, n: string) {
    exists i :: 0 <= i < |reg| && reg[i].usage == u && reg[i].name == n
  }

  /**
   * Each group is keyed by its own flag's help text, and its flag, its
   * name and its shorthand (when it has one) all come from flags with
   * that help text.
   */
  lemma {:induction false} GroupedMembers(reg: seq<FlagInfo>)
    ensures forall u :: u in Grouped(reg) ==>
      && Grouped(reg)[u].flag.usage == u
      && Grouped(reg)[u].flag in reg
      && NameWithUsage(reg, u, Grouped(reg)[u].name)
      && (Grouped(reg)[u].shorthand == "" || NameWithUsage(reg, u, Grouped(reg)[u].shorthand))
    decreases |reg|
  {
    if reg != [] {
      var front := reg[..|reg| - 1];
      var last := |reg| - 1;
      GroupedMembers(front);
      forall u | u in Grouped(reg)
        ensures Grouped(reg)[u].flag.usage == u
        ensures Grouped(reg)[u].flag in reg
        ensures NameWithUsage(reg, u, Grouped(reg)[u].name)
        ensures Grouped(reg)[u].shorthand == "" || NameWithUsage(reg, u, Grouped(reg)[u].shorthand)
      {
        var g := Grouped(reg)[u];
        assert reg[last] in reg;
        if u in Grouped(front) {
          var old_g := Grouped(front)[u];
          assert old_g.flag in front;
          assert NameWithUsage(front, u, old_g.name);
          var i :| 0 <= i < |front| && front[i].usage == u && front[i].name == old_g.name;
          assert reg[i] == front[i];
          if old_g.shorthand != "" {
            var j :| 0 <= j < |front| && front[j].usage == u && front[j].name == old_g.shorthand;
            assert reg[j] == front[j];
          }
          var k :| 0 <= k < |front| && front[k] == old_g.flag;
          assert reg[k] == front[k];
          if reg[last].usage == u {
            assert g == AddNameTo(old_g, reg[last].name);
            assert NameWithUsage(reg, u, reg[last].name);
            assert NameWithUsage(reg, u, old_g.flag.name) by {
              assert reg[k].usage == u && reg[k].name == old_g.flag.name;
            }
          } else {
            assert g == old_g;
          }
        } else {
          assert g == Group(reg[last], reg[last].name, "");
          assert NameWithUsage(reg, u, reg[last].name);
        }
      }
    }
  }

  /** Two flags registered with the same help text make one row: "-n, --namespace". */
  lemma ShorthandGroup(reg: seq<FlagInfo>, usage: string)
    requires reg == [FlagInfo("n", usage, "[default]"), FlagInfo("namespace", usage, "[default]")]
    ensures Grouped(reg).Keys == {usage}
    ensures Grouped(reg)[usage].name == "namespace" && Grouped(reg)[usage].shorthand == "n"
  {
    var s1 := reg[..1];
    assert |s1| == 1 && s1[..0] == [] && s1[0] == reg[0];
    assert Grouped(s1[..0]) == map[];
    var m1 := Grouped(s1);
    assert m1 == map[usage := Group(reg[0], "n", "")];
    assert reg[..|reg| - 1] == reg[..1];
    assert Grouped(reg) == m1[usage := AddNameTo(m1[usage], "namespace")];
  }

  /**
   * The grouping loop of `Usage`: each visited flag either starts a new
   * `Flag` or is merged into the one already holding its help text.
   */
  method GroupFlags(reg: seq<FlagInfo>) returns (groups: map<string, Group>)
    ensures groups == Grouped(reg)
  {
    var flags: map<string, Flag> := map[];
    var i := 0;
    while i < |reg|
      invariant 0 <= i <= |reg|
      invariant flags.Keys == Grouped(reg[..i]).Keys
      invariant forall u :: u in flags ==> fresh(flags[u])
      invariant forall u, v :: u in flags && v in flags && u != v ==> flags[u] != flags[v]
      invariant forall u :: u in flags ==> flags[u].View() == Grouped(reg[..i])[u]
    {
      var f := reg[i];
      assert reg[..i + 1][..i] == reg[..i] && reg[..i + 1][i] == f;
      if f.usage in flags {
        var exist := flags[f.usage];
        exist.AddName(f.name);
      } else {
        var created := new Flag(f);
        flags := flags[f.usage := created];
      }
      i := i + 1;
    }
    assert reg[..i] == reg;
    groups := map u | u in flags :: flags[u].View();
  }

  // ---------------------------------------------------------------------
  // Step 2: sorted insertion and column widths.
  // ---------------------------------------------------------------------

  /** Go's `<` on strings: lexicographic order of the characters. */
  predicate Less(a: string, b: string)
    ensures Less(a, b) ==> a != b
    decreases |a|
  {
    if a == [] then b != []
    else if b == [] then false
    else if a[0] != b[0] then a[0] < b[0]
    else Less(a[1..], b[1..])
  }

  lemma {:induction false} LessIrreflexive(a: string)
    ensures !Less(a, a)
    decreases |a|
  {
    if a != [] {
      LessIrreflexive(a[1..]);
    }
  }

  lemma {:induction false} LessTransitive(a: string, b: string, c: string)
    requires Less(a, b) && Less(b, c)
    ensures Less(a, c)
    decreases |a|
  {
    if a != [] && b != [] && c != [] && a[0] == b[0] && b[0] == c[0] {
      LessTransitive(a[1..], b[1..], c[1..]);
    }
  }

  lemma {:induction false} LessTotal(a: string, b: string)
    ensures a == b || Less(a, b) || Less(b, a)
    decreases |a|
  {
    if a != [] && b != [] && a[0] == b[0] {
      LessTotal(a[1..], b[1..]);
      if a[1..] == b[1..] {
        assert a == [a[0]] + a[1..] && b == [b[0]] + b[1..];
      }
    }
  }

  lemma LessAsymmetric(a: string, b: string)
    requires Less(a, b)
    ensures !Less(b, a)
  {
    if Less(b, a) {
      LessTransitive(a, b, a);
      LessIrreflexive(a);
    }
  }

  /** a < b <= c gives a < c. */
  lemma LessThenAtMost(a: string, b: string, c: string)
    requires Less(a, b) && !Less(c, b)
    ensures Less(a, c)
  {
    LessTotal(b, c);
    if Less(b, c) {
      LessTransitive(a, b, c);
    }
  }

  /** a <= b <= c gives a <= c. */
  lemma AtMostTransitive(a: string, b: string, c: string)
    requires !Less(b, a) && !Less(c, b)
    ensures !Less(c, a)
  {
    LessTotal(a, b);
    if Less(a, b) {
      LessThenAtMost(a, b, c);
      LessAsymmetric(a, c);
    }
  }

  /** Sorted ascending by name, equal names allowed. */
  predicate Sorted(items: seq<Group>) {
    forall i, j :: 0 <= i < j < |items| ==> !Less(items[j].name, items[i].name)
  }

  /**
   * `sort.Search` for the first item whose name is strictly greater than
   * `name`: every item before the index is not greater, every item from
   * it on is, so a new item goes after the items with an equal name.
   */
  method SearchAfter(items: seq<Group>, name: string) returns (index: nat)
    requires Sorted(items)
    ensures index <= |items|
    ensures forall j :: 0 <= j < index ==> !Less(name, items[j].name)
    ensures forall j :: index <= j < |items| ==> Less(name, items[j].name)
  {
    var lo, hi := 0, |items|;
    while lo < hi
      invariant 0 <= lo <= hi <= |items|
      invariant forall j :: 0 <= j < lo ==> !Less(name, items[j].name)
      invariant forall j :: hi <= j < |items| ==> Less(name, items[j].name)
    {
      var mid := (lo + hi) / 2;
      if !Less(name, items[mid].name) {
        forall j | 0 <= j < mid ensures !Less(name, items[j].name) {
          AtMostTransitive(items[j].name, items[mid].name, name);
        }
        lo := mid + 1;
      } else {
        forall j | mid < j < hi ensures Less(name, items[j].name) {
          LessThenAtMost(name, items[mid].name, items[j].name);
        }
        hi := mid;
      }
    }
    index := lo;
  }

  /** `append` then `copy` then the write at `index`: the item lands at `index`, the rest shift right. */
  function Insert(items: seq<Group>, index: nat, g: Group): (r: seq<Group>)
    requires index <= |items|
    ensures |r| == |items| + 1 && r[index] == g
    ensures r[..index] == items[..index] && r[index + 1..] == items[index..]
  {
    items[..index] + [g] + items[index..]
  }

  lemma InsertKeepsSorted(items: seq<Group>, index: nat, g: Group)
    requires Sorted(items) && index <= |items|
    requires forall j :: 0 <= j < index ==> !Less(g.name, items[j].name)
    requires forall j :: index <= j < |items| ==> Less(g.name, items[j].name)
    ensures Sorted(Insert(items, index, g))
    ensures forall x :: x in Insert(items, index, g) <==> x in items || x == g
  {
    var r := Insert(items, index, g);
    forall i, j | 0 <= i < j < |r| ensures !Less(r[j].name, r[i].name) {
      if j == index {
        assert r[i] == items[i];
      } else if i == index {
        assert r[j] == items[j - 1];
        LessAsymmetric(g.name, items[j - 1].name);
      } else {
        var i', j' := if i < index then i else i - 1, if j < index then j else j - 1;
        assert r[i] == items[i'] && r[j] == items[j'];
      }
    }
    assert items == items[..index] + items[index..];
  }

  /** The column widths of the help text. */
  datatype Widths = Widths(shorthand: nat, name: nat, typeName: nat)

  /** `m` is the greatest `len` over `items`, or 0 when there is none (or all are 0). */
  predicate IsMaxBy(m: nat, items: seq<Group>, len: Group -> nat) {
    && (forall x :: x in items ==> len(x) <= m)
    && (m == 0 || exists x :: x in items && len(x) == m)
  }

  /** The greatest value is unique. */
  lemma MaxUnique(m1: nat, m2: nat, items: seq<Group>, len: Group -> nat)
    requires IsMaxBy(m1, items, len) && IsMaxBy(m2, items, len)
    ensures m1 == m2
  {
    if m1 != 0 {
      var x :| x in items && len(x) == m1;
    }
    if m2 != 0 {
      var x :| x in items && len(x) == m2;
    }
  }

  function NameLen(): Group -> nat {
    (g: Group) => |g.name|
  }

  function ShorthandLen(): Group -> nat {
    (g: Group) => |g.shorthand|
  }

  function TypeLen(unquote: FlagInfo -> (string, string)): Group -> nat {
    (g: Group) => |unquote(g.flag).0|
  }

  /**
   * `maxNameLen` and `maxTypeLen` are the maxima over the items;
   * `maxShorthandLen` is the maximum plus 3 (room for "-" and ", ") when
   * positive, else 0.
   */
  predicate ColumnWidths(items: seq<Group>, w: Widths, unquote: FlagInfo -> (string, string)) {
    && IsMaxBy(w.name, items, NameLen())
    && IsMaxBy(w.typeName, items, TypeLen(unquote))
    && (if w.shorthand == 0 then IsMaxBy(0, items, ShorthandLen())
        else w.shorthand > 3 && IsMaxBy(w.shorthand - 3, items, ShorthandLen()))
  }

  /** Every group exactly once: the sorted list is a permutation of the groups. */
  predicate AllGroups(items: seq<Group>, groups: map<string, Group>) {
    && |items| == |groups|
    && (forall x :: x in items ==> x.flag.usage in groups && groups[x.flag.usage] == x)
    && (forall u :: u in groups ==> groups[u] in items)
  }

  /** Inserting `g` raises the greatest `len` to `len(g)` if that is greater. */
  lemma MaxAfterInsert(m: nat, items: seq<Group>, index: nat, g: Group, len: Group -> nat)
    requires IsMaxBy(m, items, len) && index <= |items|
    ensures IsMaxBy(if len(g) > m then len(g) else m, Insert(items, index, g), len)
  {
    var r := Insert(items, index, g);
    assert items == items[..index] + items[index..];
    assert forall x :: x in r <==> x in items || x == g;
    if len(g) <= m && m != 0 {
      var x :| x in items && len(x) == m;
      assert x in r;
    }
  }

  /** What the insertion loop knows about the groups inserted so far. */
  predicate Inserted(items: seq<Group>, groups: map<string, Group>, remaining: set<string>) {
    && remaining <= groups.Keys
    && |items| + |remaining| == |groups|
    && Sorted(items)
    && (forall x :: x in items ==> x.flag.usage in groups && groups[x.flag.usage] == x && x.flag.usage !in remaining)
    && (forall u :: u in groups && u !in remaining ==> groups[u] in items)
  }

  lemma InsertStep(items: seq<Group>, groups: map<string, Group>, remaining: set<string>, u: string, index: nat)
    requires forall v :: v in groups ==> groups[v].flag.usage == v
    requires Inserted(items, groups, remaining) && u in remaining && index <= |items|
    requires forall j :: 0 <= j < index ==> !Less(groups[u].name, items[j].name)
    requires forall j :: index <= j < |items| ==> Less(groups[u].name, items[j].name)
    ensures Inserted(Insert(items, index, groups[u]), groups, remaining - {u})
  {
    InsertKeepsSorted(items, index, groups[u]);
  }

  /**
   * The insertion loop of `Usage`. Map iteration order is not fixed in
   * Go, so each step takes any group not yet inserted.
   */
  method SortGroups(groups: map<string, Group>, unquote: FlagInfo -> (string, string))
    returns (items: seq<Group>, widths: Widths)
    requires forall u :: u in groups ==> groups[u].flag.usage == u
    ensures Sorted(items) && AllGroups(items, groups)
    ensures ColumnWidths(items, widths, unquote)
  {
    var maxTypeLen: nat, maxNameLen: nat, maxShorthandLen: nat := 0, 0, 0;
    var remaining := groups.Keys;
    items := [];
    while remaining != {}
      invariant Inserted(items, groups, remaining)
      invariant IsMaxBy(maxNameLen, items, NameLen())
      invariant IsMaxBy(maxShorthandLen, items, ShorthandLen())
      invariant IsMaxBy(maxTypeLen, items, TypeLen(unquote))
      decreases |remaining|
    {
      var u :| u in remaining;
      var item := groups[u];
      var index := SearchAfter(items, item.name);
      InsertStep(items, groups, remaining, u, index);
      MaxAfterInsert(maxNameLen, items, index, item, NameLen());
      MaxAfterInsert(maxShorthandLen, items, index, item, ShorthandLen());
      MaxAfterInsert(maxTypeLen, items, index, item, TypeLen(unquote));
      items := Insert(items, index, item);
      if |item.name| > maxNameLen {
        maxNameLen := |item.name|;
      }
      if |item.shorthand| > maxShorthandLen {
        maxShorthandLen := |item.shorthand|;
      }
      var (flagType, _) := unquote(item.flag);
      if |flagType| > maxTypeLen {
        maxTypeLen := |flagType|;
      }
      remaining := remaining - {u};
    }
    if maxShorthandLen > 0 {
      maxShorthandLen := maxShorthandLen + 3;
    }
    widths := Widths(maxShorthandLen, maxNameLen, maxTypeLen);
  }

  // ---------------------------------------------------------------------
  // Step 3: rendering.
  // ---------------------------------------------------------------------

  /** "Usage of NAME:\n", or "Usage:\n" for a flag set without a name. */
  function Header(fsName: string): (r: string)
    ensures fsName == [] ==> r == "Usage:\n"
    ensures fsName != [] ==> r == "Usage of " + fsName + ":\n"
  {
    if |fsName| > 0 then "Usage of " + fsName + ":\n" else "Usage:\n"
  }

  /** `%-Ns`: `s`, then spaces up to width `w`; never cut. */
  function PadRight(s: string, w: nat): (r: string)
    ensures |r| == if |s| < w then w else |s|
    ensures r[..|s|] == s
    ensures forall i :: |s| <= i < |r| ==> r[i] == ' '
  {
    s + seq(if |s| < w then w - |s| else 0, _ => ' ')
  }

  /** The shorthand cell: "-X, " when there is a shorthand. */
  function ShorthandCell(g: Group): (r: string)
    ensures g.shorthand == [] ==> r == []
    ensures g.shorthand != [] ==> |r| == |g.shorthand| + 3 && r[0] == '-'
    ensures g.shorthand != [] ==> r[1..|r| - 2] == g.shorthand && r[|r| - 2..] == ", "
  {
    if |g.shorthand| > 0 then "-" + g.shorthand + ", " else ""
  }

  /** " (default …)" after a non-empty default text, quoted for a string flag. */
  function DefaultSuffix(flagType: string, defValue: string): (r: string)
    ensures r == [] <==> defValue == []
    ensures defValue != [] ==> |r| > 10 && r[..10] == " (default " && r[|r| - 1] == ')'
    ensures defValue != [] ==> r[10..|r| - 1] == if flagType == "string" then Quote(defValue) else defValue
  {
    if |defValue| == 0 then ""
    else if flagType == "string" then " (default " + Quote(defValue) + ")"
    else " (default " + defValue + ")"
  }

  /** The text up to the help column. */
  function Cells(g: Group, w: Widths, flagType: string): (r: string)
    ensures HelpColumn(w) <= |r| && r[..2] == "  " && r[|r| - 2..] == "  "
    ensures |ShorthandCell(g)| <= w.shorthand && |g.name| <= w.name && |flagType| <= w.typeName
        ==> |r| == HelpColumn(w)
  {
    "  " + PadRight(ShorthandCell(g), w.shorthand) + "--" + PadRight(g.name, w.name)
      + "  " + PadRight(flagType, w.typeName) + "  "
  }

  /** One line of the help text. */
  function Row(g: Group, w: Widths, unquote: FlagInfo -> (string, string)): (r: string)
    ensures var cells := Cells(g, w, unquote(g.flag).0);
      |cells| < |r| && r[..|cells|] == cells && r[|r| - 1] == '\n'
  {
    var (flagType, usage) := unquote(g.flag);
    Cells(g, w, flagType) + usage + DefaultSuffix(flagType, g.flag.defValue) + "\n"
  }

  /** The column where the help text starts. */
  function HelpColumn(w: Widths): nat {
    2 + w.shorthand + 2 + w.name + 2 + w.typeName + 2
  }

  /**
   * When every cell fits its column, "--" sits right after the shorthand
   * column, the name right after it, and the help text starts at the
   * same column on every row.
   */
  lemma CellsLayout(g: Group, w: Widths, flagType: string)
    requires |ShorthandCell(g)| <= w.shorthand && |g.name| <= w.name && |flagType| <= w.typeName
    ensures var cells, c := Cells(g, w, flagType), 2 + w.shorthand;
      && |cells| == HelpColumn(w)
      && cells[c..c + 2] == "--"
      && cells[c + 2..c + 2 + |g.name|] == g.name
  {
    var p2 := PadRight(g.name, w.name);
    var front := "  " + PadRight(ShorthandCell(g), w.shorthand) + "--";
    var back := "  " + PadRight(flagType, w.typeName) + "  ";
    assert Cells(g, w, flagType) == front + p2 + back;
    Infix("  " + PadRight(ShorthandCell(g), w.shorthand), "--", p2 + back);
    assert front + p2 + back == "  " + PadRight(ShorthandCell(g), w.shorthand) + "--" + (p2 + back);
    Infix(front, p2, back);
    assert p2[..|g.name|] == g.name;
  }

  lemma RowLayout(g: Group, w: Widths, unquote: FlagInfo -> (string, string))
    requires |ShorthandCell(g)| <= w.shorthand && |g.name| <= w.name && |unquote(g.flag).0| <= w.typeName
    ensures var r, c := Row(g, w, unquote), 2 + w.shorthand;
      && HelpColumn(w) + |unquote(g.flag).1| <= |r|
      && r[c..c + 2] == "--"
      && r[c + 2..c + 2 + |g.name|] == g.name
      && r[HelpColumn(w)..HelpColumn(w) + |unquote(g.flag).1|] == unquote(g.flag).1
  {
    var flagType, usage := unquote(g.flag).0, unquote(g.flag).1;
    var cells := Cells(g, w, flagType);
    var tail := DefaultSuffix(flagType, g.flag.defValue) + "\n";
    CellsLayout(g, w, flagType);
    var r := Row(g, w, unquote);
    assert r == cells + usage + tail;
    Infix(cells, usage, tail);
    assert r[..|cells|] == cells;
  }

  lemma Infix(a: string, b: string, c: string)
    ensures (a + b + c)[|a|..|a| + |b|] == b
  {
  }

  /** When the widths are the measured maxima, every row of the list is laid out as above. */
  lemma WidthsFit(items: seq<Group>, w: Widths, unquote: FlagInfo -> (string, string), i: nat)
    requires ColumnWidths(items, w, unquote) && i < |items|
    ensures |ShorthandCell(items[i])| <= w.shorthand && |items[i].name| <= w.name
    ensures |unquote(items[i].flag).0| <= w.typeName
  {
    var g := items[i];
    assert g in items;
    assert NameLen()(g) <= w.name;
    assert TypeLen(unquote)(g) <= w.typeName;
    assert ShorthandLen()(g) <= (if w.shorthand == 0 then 0 else w.shorthand - 3);
  }

  /** The rows of `items`, in order. */
  function Rows(items: seq<Group>, w: Widths, unquote: FlagInfo -> (string, string)): (r: string)
    ensures r == [] <==> items == []
    ensures items != [] ==> r[|r| - 1] == '\n'
    decreases |items|
  {
    if items == [] then "" else Rows(items[..|items| - 1], w, unquote) + Row(items[|items| - 1], w, unquote)
  }

  /** The row loop of `Usage`. */
  method RenderRows(items: seq<Group>, w: Widths, unquote: FlagInfo -> (string, string)) returns (out: string)
    ensures out == Rows(items, w, unquote)
  {
    out := "";
    var i := 0;
    while i < |items|
      invariant 0 <= i <= |items|
      invariant out == Rows(items[..i], w, unquote)
    {
      assert items[..i + 1][..i] == items[..i];
      out := out + Row(items[i], w, unquote);
      i := i + 1;
    }
    assert items[..i] == items;
  }

  /**
   * `Usage`: the header, then one row per distinct help text, sorted by
   * name, in columns as wide as their widest cell. The sorted groups and
   * the widths, which usage.go keeps in local variables, are returned
   * beside the text so that the contract can name them.
   */
  method Usage(fsName: string, reg: seq<FlagInfo>, unquote: FlagInfo -> (string, string))
    returns (out: string, items: seq<Group>, widths: Widths)
    ensures Sorted(items) && AllGroups(items, Grouped(reg))
    ensures ColumnWidths(items, widths, unquote)
    ensures out == Header(fsName) + Rows(items, widths, unquote)
  {
    var groups := GroupFlags(reg);
    GroupedMembers(reg);
    var sorted, w := SortGroups(groups, unquote);
    var rows := RenderRows(sorted, w, unquote);
    out := Header(fsName) + rows;
    items, widths := sorted, w;
  }
}
