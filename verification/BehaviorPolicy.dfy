/** Rendering behaviour rules under a character budget: `_render_projection` and the status and coverage
    of `compile_behavior_policy` in brainstack/behavior_policy.py. */
module BehaviorPolicy {
  import opened Results
  import opened Sequences
  import opened Text

  datatype Clause = Clause(id: string, kind: string, status: string, shortForm: string, text: string)

  datatype Item = Item(id: string, text: string)

  datatype Group = Group(kind: string, items: seq<Item>)

  /** One line of the projection, before rendering. */
  datatype Line = Gap | Label(kind: string) | Bullet(kind: string, item: Item) | Omitted(count: nat) | Ellipsis

  // ----- surfaces -----

  const KIND_LABELS: seq<(string, string)> := [
    ("language_policy", "Language and locale"),
    ("question_policy", "Follow-up behavior"),
    ("addressing_policy", "Naming and addressing"),
    ("tone_policy", "Tone and relationship"),
    ("content_policy", "Content discipline"),
    ("verbosity_policy", "Brevity and density"),
    ("structure_policy", "Structure and composition"),
    ("formatting_policy", "Formatting and emphasis"),
    ("punctuation_policy", "Punctuation and symbols"),
    ("forbidden_surface_form", "Forbidden surface forms"),
    ("uncertainty_policy", "Uncertainty handling"),
    ("custom_clause", "Additional explicit rules")]

  function LabelIn(table: seq<(string, string)>, kind: string): string {
    if table == [] then "" else if table[0].0 == kind then table[0].1 else LabelIn(table[1..], kind)
  }

  function LabelOf(kind: string): string {
    LabelIn(KIND_LABELS, kind)
  }

  function SpellDash(c: char): string {
    if c == '\U{2014}' then "U+2014 EM DASH" else if c == '\U{2013}' then "U+2013 EN DASH" else [c]
  }

  function ReplaceDashes(s: string): string {
    if s == "" then "" else SpellDash(s[0]) + ReplaceDashes(s[1..])
  }

  function Sanitize(s: string): string {
    ReplaceDashes(Normalize(s))
  }

  function Render(line: Line): string {
    match line
    case Gap => ""
    case Label(kind) => LabelOf(kind) + ":"
    case Bullet(_, item) => "- " + item.text
    case Omitted(n) => "... (" + NatToString(n) + " additional compiled rules omitted)"
    case Ellipsis => "..."
  }

  /** `"\n".join(lines)`. */
  function Lined(lines: seq<Line>): string {
    if lines == [] then ""
    else if |lines| == 1 then Render(lines[0])
    else Lined(lines[..|lines| - 1]) + "\n" + Render(lines[|lines| - 1])
  }

  function Len(lines: seq<Line>): nat {
    |Lined(lines)|
  }

  // ----- grouping -----

  function KindOf(c: Clause): string {
    var kind := if Strip(c.kind) != "" then Strip(c.kind) else "custom_clause";
    if LabelOf(kind) == "" then "custom_clause" else kind
  }

  function SurfaceOf(c: Clause): string {
    Sanitize(if c.shortForm != "" then c.shortForm else c.text)
  }

  /** The rules of one kind that are active and have something to show, in order. */
  function ItemsOf(clauses: seq<Clause>, kind: string): seq<Item> {
    if clauses == [] then []
    else
      var n := |clauses| - 1;
      var c := clauses[n];
      ItemsOf(clauses[..n], kind)
      + if Strip(c.status) == "active" && KindOf(c) == kind && SurfaceOf(c) != "" then [Item(c.id, SurfaceOf(c))] else []
  }

  function GroupsFrom(clauses: seq<Clause>, table: seq<(string, string)>): (gs: seq<Group>)
    ensures |gs| == |table|
    ensures forall i :: 0 <= i < |gs| ==> gs[i] == Group(table[i].0, ItemsOf(clauses, table[i].0))
  {
    seq(|table|, i requires 0 <= i < |table| => Group(table[i].0, ItemsOf(clauses, table[i].0)))
  }

  function Total(groups: seq<Group>): nat {
    if groups == [] then 0 else |groups[0].items| + Total(groups[1..])
  }

  // ----- filling up to the budget -----

  function TakeFit(lines: seq<Line>, kind: string, items: seq<Item>, budget: int): seq<Line>
    decreases |items|
  {
    if items == [] then lines
    else if Len(lines + [Bullet(kind, items[0])]) > budget then lines
    else TakeFit(lines + [Bullet(kind, items[0])], kind, items[1..], budget)
  }

  function Prefix(lines: seq<Line>, kind: string): seq<Line> {
    if lines == [] then [Label(kind)] else [Gap, Label(kind)]
  }

  /** The lines with the block's prefix, if each line of it fits in turn. */
  function WithPrefix(lines: seq<Line>, prefix: seq<Line>, budget: int): Option<seq<Line>>
    decreases |prefix|
  {
    if prefix == [] then Some(lines)
    else if Len(lines + [prefix[0]]) > budget then None
    else WithPrefix(lines + [prefix[0]], prefix[1..], budget)
  }

  /** The block of one kind on top of the lines so far; none when not even one rule of it fits. */
  function Block(lines: seq<Line>, g: Group, budget: int): Option<seq<Line>> {
    var trial := WithPrefix(lines, Prefix(lines, g.kind), budget);
    if trial.None? then None
    else
      var block := TakeFit(trial.value, g.kind, g.items, budget);
      if |block| == |trial.value| then None else Some(block)
  }

  function CountBullets(lines: seq<Line>): nat {
    if lines == [] then 0
    else CountBullets(lines[..|lines| - 1]) + if lines[|lines| - 1].Bullet? then 1 else 0
  }

  /** All blocks that fit, kind by kind, stopping at the first kind of which nothing fits. */
  function Fill(groups: seq<Group>, lines: seq<Line>, budget: int): seq<Line>
    decreases |groups|
  {
    if groups == [] then lines
    else if groups[0].items == [] then Fill(groups[1..], lines, budget)
    else
      var block := Block(lines, groups[0], budget);
      if block.None? then lines else Fill(groups[1..], block.value, budget)
  }

  /** Making room for the line that tells how many rules are left out, one line at a time from the end. */
  function Shrink(lines: seq<Line>, remaining: nat, budget: int): seq<Line> {
    if lines == [] then
      if |Render(Omitted(remaining))| <= budget then [Omitted(remaining)] else [Ellipsis]
    else if Len(lines + [Omitted(remaining)]) <= budget then lines + [Omitted(remaining)]
    else
      var n := |lines| - 1;
      Shrink(lines[..n], if lines[n].Bullet? then remaining + 1 else remaining, budget)
  }

  function Remaining(groups: seq<Group>, lines: seq<Line>): int {
    Total(groups) - CountBullets(lines)
  }

  function FinalLines(groups: seq<Group>, budget: int): seq<Line> {
    var lines := Fill(groups, [], budget);
    if Remaining(groups, lines) > 0 then Shrink(lines, Remaining(groups, lines), budget) else lines
  }

  function BulletIds(lines: seq<Line>): seq<string> {
    if lines == [] then []
    else BulletIds(lines[..|lines| - 1]) + if lines[|lines| - 1].Bullet? then [lines[|lines| - 1].item.id] else []
  }

  // ----- lengths -----

  lemma LinedSnoc(lines: seq<Line>, l: Line)
    ensures Lined(lines + [l]) == if lines == [] then Render(l) else Lined(lines) + "\n" + Render(l)
  {
    hide Render;
    assert (lines + [l])[..|lines|] == lines;
  }

  lemma LenGrows(lines: seq<Line>, l: Line)
    ensures Len(lines + [l]) >= Len(lines) && Len(lines + [l]) >= |Render(l)|
  {
    LinedSnoc(lines, l);
    hide Lined, Render;
    assert lines == [] ==> Lined(lines) == "" by { EmptyLined(); }
  }

  lemma EmptyLined()
    ensures Lined([]) == ""
  {
  }

  // ----- bullets of one kind -----

  /** The rules shown under one kind, in order. */
  function BulletsOf(lines: seq<Line>, kind: string): seq<Item> {
    if lines == [] then []
    else
      var l := lines[|lines| - 1];
      BulletsOf(lines[..|lines| - 1], kind) + if l.Bullet? && l.kind == kind then [l.item] else []
  }

  function Bullets(kind: string, items: seq<Item>): (ls: seq<Line>)
    ensures |ls| == |items|
  {
    seq(|items|, i requires 0 <= i < |items| => Bullet(kind, items[i]))
  }

  lemma BulletsSnoc(lines: seq<Line>, l: Line, kind: string)
    ensures BulletsOf(lines + [l], kind) == BulletsOf(lines, kind) + if l.Bullet? && l.kind == kind then [l.item] else []
    ensures CountBullets(lines + [l]) == CountBullets(lines) + if l.Bullet? then 1 else 0
  {
    assert (lines + [l])[..|lines|] == lines;
  }

  lemma {:induction false} BulletsPrefix(lines: seq<Line>, n: nat, kind: string)
    requires n <= |lines|
    ensures BulletsOf(lines[..n], kind) <= BulletsOf(lines, kind)
  {
    if n < |lines| {
      BulletsPrefix(lines[..|lines| - 1], n, kind);
      assert lines[..|lines| - 1][..n] == lines[..n];
    } else {
      assert lines[..n] == lines;
    }
  }

  lemma BulletsLast(lines: seq<Line>, kind: string, items: seq<Item>)
    requires items != []
    ensures var n := |items| - 1;
            lines + Bullets(kind, items) == (lines + Bullets(kind, items[..n])) + [Bullet(kind, items[n])]
  {
  }

  lemma {:induction false} BulletsAppended(lines: seq<Line>, kind: string, items: seq<Item>, other: string)
    ensures BulletsOf(lines + Bullets(kind, items), other) ==
            BulletsOf(lines, other) + if other == kind then items else []
    ensures CountBullets(lines + Bullets(kind, items)) == CountBullets(lines) + |items|
    decreases |items|
  {
    hide BulletsOf, CountBullets;
    if items == [] {
      assert lines + Bullets(kind, items) == lines;
    } else {
      var n := |items| - 1;
      BulletsLast(lines, kind, items);
      hide Bullets;
      BulletsAppended(lines, kind, items[..n], other);
      BulletsSnoc(lines + Bullets(kind, items[..n]), Bullet(kind, items[n]), other);
      assert items[..n] + [items[n]] == items;
    }
  }

  lemma BulletsFirst(lines: seq<Line>, kind: string, items: seq<Item>)
    requires items != []
    ensures (lines + [Bullet(kind, items[0])]) + Bullets(kind, items[1..]) == lines + Bullets(kind, items)
  {
  }

  /** The block takes a prefix of the rules, and stays within the budget. */
  lemma {:induction false} TakeFitShape(lines: seq<Line>, kind: string, items: seq<Item>, budget: int) returns (m: nat)
    requires Len(lines) <= budget
    ensures m <= |items| && TakeFit(lines, kind, items, budget) == lines + Bullets(kind, items[..m])
    ensures Len(TakeFit(lines, kind, items, budget)) <= budget
    ensures m < |items| ==> Len(TakeFit(lines, kind, items, budget) + [Bullet(kind, items[m])]) > budget
    decreases |items|
  {
    hide Len, Bullets;
    if items == [] || Len(lines + [Bullet(kind, items[0])]) > budget {
      m := 0;
      assert lines + Bullets(kind, []) == lines;
      assert items[..0] == [];
    } else {
      var k := TakeFitShape(lines + [Bullet(kind, items[0])], kind, items[1..], budget);
      m := k + 1;
      assert items[..m][1..] == items[1..][..k];
      BulletsFirst(lines, kind, items[..m]);
    }
  }

  // ----- what filling does -----

  ghost predicate DistinctKinds(groups: seq<Group>) {
    forall i, j :: 0 <= i < j < |groups| ==> groups[i].kind != groups[j].kind
  }

  /** No rule of these kinds is shown yet. */
  ghost predicate Fresh(groups: seq<Group>, lines: seq<Line>) {
    forall g :: g in groups ==> BulletsOf(lines, g.kind) == []
  }

  function Shown(groups: seq<Group>, lines: seq<Line>): nat {
    if groups == [] then 0 else |BulletsOf(lines, groups[0].kind)| + Shown(groups[1..], lines)
  }

  /** Each kind shows a prefix of its rules. */
  ghost predicate PrefixPerKind(groups: seq<Group>, lines: seq<Line>) {
    forall g :: g in groups ==> BulletsOf(lines, g.kind) <= g.items
  }

  /** Starts with a label, and ends with a rule. */
  ghost predicate Blocks(lines: seq<Line>) {
    lines != [] ==> lines[0].Label? && LabelOf(lines[0].kind) != "" && lines[|lines| - 1].Bullet?
  }

  lemma {:induction false} WithPrefixShape(lines: seq<Line>, prefix: seq<Line>, budget: int)
    requires WithPrefix(lines, prefix, budget).Some? && prefix != []
    ensures WithPrefix(lines, prefix, budget).value == lines + prefix && Len(lines + prefix) <= budget
    decreases |prefix|
  {
    hide Len;
    var next, rest := lines + [prefix[0]], prefix[1..];
    AppendOne(lines, prefix[0], rest);
    assert [prefix[0]] + rest == prefix;
    if rest == [] {
      assert next == lines + prefix;
    } else {
      WithPrefixShape(next, rest, budget);
    }
  }

  lemma PrefixNoBullets(lines: seq<Line>, kind: string, other: string)
    ensures BulletsOf(lines + Prefix(lines, kind), other) == BulletsOf(lines, other)
    ensures CountBullets(lines + Prefix(lines, kind)) == CountBullets(lines)
  {
    if lines == [] {
      BulletsSnoc(lines, Label(kind), other);
    } else {
      BulletsSnoc(lines, Gap, other);
      BulletsSnoc(lines + [Gap], Label(kind), other);
      assert lines + [Gap] + [Label(kind)] == lines + [Gap, Label(kind)];
    }
  }

  /** A block adds at least one rule, a prefix of its kind's, and touches no other kind. */
  lemma BlockShape(lines: seq<Line>, g: Group, budget: int) returns (m: nat)
    requires Block(lines, g, budget).Some? && Blocks(lines) && LabelOf(g.kind) != ""
    ensures var b := Block(lines, g, budget).value;
            && 0 < m <= |g.items| && lines <= b && Len(b) <= budget && Blocks(b)
            && CountBullets(b) == CountBullets(lines) + m
            && forall k :: BulletsOf(b, k) == BulletsOf(lines, k) + if k == g.kind then g.items[..m] else []
  {
    hide Len, LabelOf;
    WithPrefixShape(lines, Prefix(lines, g.kind), budget);
    var t := lines + Prefix(lines, g.kind);
    m := TakeFitShape(t, g.kind, g.items, budget);
    var b := t + Bullets(g.kind, g.items[..m]);
    forall k ensures BulletsOf(b, k) == BulletsOf(lines, k) + if k == g.kind then g.items[..m] else [] {
      PrefixNoBullets(lines, g.kind, k);
      BulletsAppended(t, g.kind, g.items[..m], k);
    }
    PrefixNoBullets(lines, g.kind, g.kind);
    BulletsAppended(t, g.kind, g.items[..m], g.kind);
    LastBullet(t, g.kind, g.items[..m]);
  }

  lemma LastBullet(lines: seq<Line>, kind: string, items: seq<Item>)
    requires items != []
    ensures var r := lines + Bullets(kind, items); r[|r| - 1] == Bullet(kind, items[|items| - 1])
  {
  }

  ghost predicate AllLabelled(groups: seq<Group>) {
    forall g :: g in groups ==> LabelOf(g.kind) != ""
  }

  /** From `lines`, which show none of these kinds, to `r`: within the budget, each kind a prefix of its
      rules, all that is added is counted, and other kinds are as before. */
  ghost predicate Filled(groups: seq<Group>, lines: seq<Line>, r: seq<Line>, budget: int) {
    && Blocks(r) && (r == [] || Len(r) <= budget)
    && PrefixPerKind(groups, r)
    && CountBullets(r) == CountBullets(lines) + Shown(groups, r)
    && forall k :: (forall g :: g in groups ==> g.kind != k) ==> BulletsOf(r, k) == BulletsOf(lines, k)
  }

  ghost predicate Fillable(groups: seq<Group>, lines: seq<Line>, budget: int) {
    && DistinctKinds(groups) && AllLabelled(groups) && Fresh(groups, lines)
    && Blocks(lines) && (lines == [] || Len(lines) <= budget)
  }

  lemma FillableRest(groups: seq<Group>, lines: seq<Line>, budget: int)
    requires Fillable(groups, lines, budget) && groups != []
    ensures Fillable(groups[1..], lines, budget)
    ensures forall h :: h in groups[1..] ==> h.kind != groups[0].kind
    ensures LabelOf(groups[0].kind) != "" && BulletsOf(lines, groups[0].kind) == []
  {
    hide Len, LabelOf, Blocks, BulletsOf;
    assert groups[0] in groups && forall h :: h in groups[1..] ==> h in groups;
  }

  lemma FilledSkip(groups: seq<Group>, lines: seq<Line>, r: seq<Line>, budget: int, m: nat, b: seq<Line>)
    requires groups != [] && m <= |groups[0].items|
    requires Filled(groups[1..], b, r, budget)
    requires forall h :: h in groups[1..] ==> h.kind != groups[0].kind
    requires BulletsOf(lines, groups[0].kind) == [] && CountBullets(b) == CountBullets(lines) + m
    requires forall k :: BulletsOf(b, k) == BulletsOf(lines, k) + if k == groups[0].kind then groups[0].items[..m] else []
    ensures Filled(groups, lines, r, budget)
  {
    hide Len, Blocks, BulletsOf, CountBullets;
    var g := groups[0];
    assert BulletsOf(r, g.kind) == g.items[..m];
    assert forall h :: h in groups <==> h == g || h in groups[1..];
  }

  lemma FilledStop(groups: seq<Group>, lines: seq<Line>, budget: int)
    requires Fillable(groups, lines, budget)
    ensures Filled(groups, lines, lines, budget)
  {
    NothingShown(groups, lines);
    hide Len, Blocks, BulletsOf, CountBullets;
  }

  /** Filling keeps every kind a prefix of its rules and counts what it shows. */
  lemma {:induction false} FillShape(groups: seq<Group>, lines: seq<Line>, budget: int)
    requires Fillable(groups, lines, budget)
    ensures Filled(groups, lines, Fill(groups, lines, budget), budget)
    decreases |groups|
  {
    hide Filled, Block, BulletsOf, CountBullets, LabelOf;
    FilledStop(groups, lines, budget);
    if groups != [] {
      var g, rest := groups[0], groups[1..];
      var block := Block(lines, g, budget);
      FillableRest(groups, lines, budget);
      if g.items == [] {
        hide Fillable;
        FillShape(rest, lines, budget);
        FilledSkip(groups, lines, Fill(rest, lines, budget), budget, 0, lines);
      } else if block.Some? {
        var m := BlockShape(lines, g, budget);
        assert Fillable(rest, block.value, budget);
        hide Fillable;
        FillShape(rest, block.value, budget);
        FilledSkip(groups, lines, Fill(rest, block.value, budget), budget, m, block.value);
      }
    }
  }

  lemma {:induction false} NothingShown(groups: seq<Group>, lines: seq<Line>)
    requires Fresh(groups, lines)
    ensures Shown(groups, lines) == 0
  {
    if groups != [] {
      assert groups[0] in groups && forall h :: h in groups[1..] ==> h in groups;
      NothingShown(groups[1..], lines);
    }
  }

  /** Kind by kind, `shown` says how many rules are shown: as many as fit behind the label and what is shown before,
      and filling stops at the first kind of which not even one does. */
  ghost predicate LaidOut(groups: seq<Group>, lines: seq<Line>, shown: seq<nat>, r: seq<Line>, budget: int)
    decreases |groups|
  {
    if groups == [] then shown == [] && r == lines
    else
      && shown != [] && shown[0] <= |groups[0].items|
      && var g, n := groups[0], shown[0];
         var labelled := lines + (if lines == [] then [Label(g.kind)] else [Gap, Label(g.kind)]);
         var next := labelled + Bullets(g.kind, g.items[..n]);
         if g.items == [] then LaidOut(groups[1..], lines, shown[1..], r, budget)
         else if n == 0 then
           Len(labelled + [Bullet(g.kind, g.items[0])]) > budget && r == lines
         else
           && Len(next) <= budget
           && (n < |g.items| ==> Len(next + [Bullet(g.kind, g.items[n])]) > budget)
           && LaidOut(groups[1..], next, shown[1..], r, budget)
  }

  /** Filling is that and nothing else. */
  lemma {:induction false} FillLaidOut(groups: seq<Group>, lines: seq<Line>, budget: int) returns (shown: seq<nat>)
    ensures LaidOut(groups, lines, shown, Fill(groups, lines, budget), budget)
    decreases |groups|
  {
    hide Len, Prefix, Bullets;
    if groups == [] {
      shown := [];
    } else {
      var g := groups[0];
      if g.items == [] {
        var rest := FillLaidOut(groups[1..], lines, budget);
        shown := [0] + rest;
        assert shown[1..] == rest;
      } else {
        var block := Block(lines, g, budget);
        var n := BlockLaidOut(lines, g, budget);
        PrefixIs(lines, g.kind);
        hide Block;
        if block.None? {
          shown := [n];
        } else {
          var rest := FillLaidOut(groups[1..], block.value, budget);
          shown := [n] + rest;
          assert shown[1..] == rest;
        }
      }
    }
  }

  lemma BlockLaidOut(lines: seq<Line>, g: Group, budget: int) returns (n: nat)
    requires g.items != []
    ensures n <= |g.items|
    ensures var labelled, block := lines + Prefix(lines, g.kind), Block(lines, g, budget);
            if n == 0 then block == None && Len(labelled + [Bullet(g.kind, g.items[0])]) > budget
            else
              && block == Some(labelled + Bullets(g.kind, g.items[..n])) && Len(block.value) <= budget
              && (n < |g.items| ==> Len(block.value + [Bullet(g.kind, g.items[n])]) > budget)
  {
    hide Len, Prefix;
    var prefix := Prefix(lines, g.kind);
    assert prefix != [] by { PrefixNotEmpty(lines, g.kind); }
    if WithPrefix(lines, prefix, budget).None? {
      n := 0;
      PrefixTooLong(lines, prefix, budget);
      LenGrows(lines + prefix, Bullet(g.kind, g.items[0]));
    } else {
      WithPrefixShape(lines, prefix, budget);
      n := TakeFitShape(lines + prefix, g.kind, g.items, budget);
      if n == 0 {
        assert lines + prefix + Bullets(g.kind, g.items[..n]) == lines + prefix;
      }
    }
  }

  lemma PrefixIs(lines: seq<Line>, kind: string)
    ensures Prefix(lines, kind) == if lines == [] then [Label(kind)] else [Gap, Label(kind)]
  {
  }

  lemma PrefixNotEmpty(lines: seq<Line>, kind: string)
    ensures Prefix(lines, kind) != []
  {
  }

  lemma {:induction false} PrefixTooLong(lines: seq<Line>, prefix: seq<Line>, budget: int)
    requires WithPrefix(lines, prefix, budget).None?
    ensures Len(lines + prefix) > budget
    decreases |prefix|
  {
    hide Len;
    var next, rest := lines + [prefix[0]], prefix[1..];
    AppendOne(lines, prefix[0], rest);
    assert [prefix[0]] + rest == prefix;
    if Len(next) > budget {
      LenNeverShrinks(next, rest);
    } else {
      PrefixTooLong(next, rest, budget);
    }
  }

  lemma {:induction false} LenNeverShrinks(lines: seq<Line>, more: seq<Line>)
    ensures Len(lines + more) >= Len(lines)
    decreases |more|
  {
    hide Len;
    if more == [] {
      assert lines + more == lines;
    } else {
      AppendOne(lines, more[0], more[1..]);
      assert [more[0]] + more[1..] == more;
      LenGrows(lines, more[0]);
      LenNeverShrinks(lines + [more[0]], more[1..]);
    }
  }

  /** Showing as many rules as there are means showing all of them. */
  lemma {:induction false} AllShown(groups: seq<Group>, lines: seq<Line>)
    requires PrefixPerKind(groups, lines)
    ensures Shown(groups, lines) <= Total(groups)
    ensures Shown(groups, lines) == Total(groups) ==> forall g :: g in groups ==> BulletsOf(lines, g.kind) == g.items
  {
    if groups != [] {
      assert groups[0] in groups && forall h :: h in groups[1..] ==> h in groups;
      AllShown(groups[1..], lines);
      forall g | g in groups && Shown(groups, lines) == Total(groups) ensures BulletsOf(lines, g.kind) == g.items {
        assert g == groups[0] || g in groups[1..];
      }
    }
  }

  // ----- what shrinking does -----

  /** The final lines either end by counting all rules they do not show, or are the bare ellipsis. */
  ghost predicate Shrunk(lines: seq<Line>, remaining: nat, r: seq<Line>, budget: int) {
    r == [Ellipsis]
    || (&& r != [] && r[|r| - 1].Omitted? && r[..|r| - 1] <= lines && Len(r) <= budget
        && r[|r| - 1].count >= remaining
        && r[|r| - 1].count + CountBullets(r[..|r| - 1]) == remaining + CountBullets(lines))
  }

  lemma LenOne(l: Line)
    ensures Len([l]) == |Render(l)|
  {
  }

  lemma {:induction false} ShrinkShape(lines: seq<Line>, remaining: nat, budget: int)
    ensures Shrunk(lines, remaining, Shrink(lines, remaining, budget), budget)
  {
    hide Len, Render;
    if lines == [] {
      LenOne(Omitted(remaining));
      assert [Omitted(remaining)][..0] == lines;
    } else if Len(lines + [Omitted(remaining)]) <= budget {
      assert (lines + [Omitted(remaining)])[..|lines|] == lines;
    } else {
      var n := |lines| - 1;
      ShrinkShape(lines[..n], if lines[n].Bullet? then remaining + 1 else remaining, budget);
    }
  }

  /** The lines fit the budget together with a line that counts what they leave out of `total` rules. */
  ghost predicate FitsCounted(lines: seq<Line>, total: nat, budget: int) {
    CountBullets(lines) <= total && Len(lines + [Omitted(total - CountBullets(lines))]) <= budget
  }

  /** No more is taken off than needed: what is left is the longest start of the lines that fits with its count,
      and only when no start of them does are the bare dots left. */
  ghost predicate LongestStart(lines: seq<Line>, total: nat, r: seq<Line>, budget: int) {
    if r == [Ellipsis] then forall j :: 0 <= j <= |lines| ==> !FitsCounted(lines[..j], total, budget)
    else
      && 1 <= |r| <= |lines| + 1
      && var k := |r| - 1;
         && FitsCounted(lines[..k], total, budget) && r == lines[..k] + [Omitted(total - CountBullets(lines[..k]))]
         && forall j :: k < j <= |lines| ==> !FitsCounted(lines[..j], total, budget)
  }

  lemma {:induction false} ShrinkLongest(lines: seq<Line>, remaining: nat, budget: int)
    ensures LongestStart(lines, remaining + CountBullets(lines), Shrink(lines, remaining, budget), budget)
  {
    hide Len, Render;
    var r, total := Shrink(lines, remaining, budget), remaining + CountBullets(lines);
    assert lines[..|lines|] == lines;
    if lines == [] {
      LenOne(Omitted(remaining));
      assert CountBullets(lines) == 0 && lines + [Omitted(remaining)] == [Omitted(remaining)];
      assert FitsCounted(lines, total, budget) <==> Len([Omitted(remaining)]) <= budget;
    } else if Len(lines + [Omitted(remaining)]) <= budget {
      assert r[|lines|] == Omitted(remaining);
    } else {
      var n := |lines| - 1;
      ShrinkLongest(lines[..n], if lines[n].Bullet? then remaining + 1 else remaining, budget);
      OneLineLess(lines, total, r, budget);
    }
  }

  lemma OneLineLess(lines: seq<Line>, total: nat, r: seq<Line>, budget: int)
    requires lines != [] && LongestStart(lines[..|lines| - 1], total, r, budget) && !FitsCounted(lines, total, budget)
    ensures LongestStart(lines, total, r, budget)
  {
    hide FitsCounted, CountBullets;
    var n := |lines| - 1;
    forall j | (if r == [Ellipsis] then 0 else |r|) <= j <= |lines| ensures !FitsCounted(lines[..j], total, budget) {
      if j == |lines| {
        assert lines[..j] == lines;
      } else {
        assert lines[..n][..j] == lines[..j];
      }
    }
    assert r != [Ellipsis] ==> lines[..n][..|r| - 1] == lines[..|r| - 1];
  }

  // ----- the rendered policy -----

  /** Every line shown fits, every kind shows a prefix of its rules, and what is not shown is counted. */
  ghost predicate HonestLines(groups: seq<Group>, lines: seq<Line>, budget: int) {
    && PrefixPerKind(groups, lines)
    && (lines == [Ellipsis]
        || (lines != [] && lines[|lines| - 1].Omitted? && Len(lines) <= budget
            && lines[|lines| - 1].count > 0
            && lines[|lines| - 1].count + CountBullets(lines[..|lines| - 1]) == Total(groups))
        || ((lines == [] || Len(lines) <= budget) && CountBullets(lines) == Total(groups)
            && forall g :: g in groups ==> BulletsOf(lines, g.kind) == g.items))
  }

  ghost predicate Renderable(groups: seq<Group>) {
    DistinctKinds(groups) && AllLabelled(groups)
  }

  lemma FillFromNothing(groups: seq<Group>, budget: int)
    requires Renderable(groups)
    ensures var lines := Fill(groups, [], budget);
            && Blocks(lines) && (lines == [] || Len(lines) <= budget) && PrefixPerKind(groups, lines)
            && CountBullets(lines) == Shown(groups, lines) <= Total(groups)
            && (CountBullets(lines) == Total(groups) ==> forall g :: g in groups ==> BulletsOf(lines, g.kind) == g.items)
            && forall k :: (forall g :: g in groups ==> g.kind != k) ==> BulletsOf(lines, k) == []
  {
    assert forall k :: BulletsOf([], k) == [] && CountBullets([]) == 0;
    hide LabelOf, Len, BulletsOf, CountBullets;
    FillShape(groups, [], budget);
    AllShown(groups, Fill(groups, [], budget));
  }

  lemma TruncationHonest(groups: seq<Group>, budget: int)
    requires Renderable(groups)
    ensures HonestLines(groups, FinalLines(groups, budget), budget)
  {
    hide Len, BulletsOf, LabelOf, Blocks;
    var lines := Fill(groups, [], budget);
    FillFromNothing(groups, budget);
    hide CountBullets;
    var remaining := Remaining(groups, lines);
    if remaining > 0 {
      var r := Shrink(lines, remaining, budget);
      ShrinkShape(lines, remaining, budget);
      forall g | g in groups ensures BulletsOf(r, g.kind) <= g.items {
        if r == [Ellipsis] {
          NoBulletsInEllipsis(g.kind);
        } else {
          ShownAfterShrink(lines, r, g.kind);
        }
      }
    }
  }

  lemma NoBulletsInEllipsis(kind: string)
    ensures BulletsOf([Ellipsis], kind) == []
  {
  }

  lemma ShownAfterShrink(lines: seq<Line>, r: seq<Line>, kind: string)
    requires r != [] && r[|r| - 1].Omitted? && r[..|r| - 1] <= lines
    ensures BulletsOf(r, kind) <= BulletsOf(lines, kind)
  {
    var front := r[..|r| - 1];
    BulletsSnoc(front, r[|r| - 1], kind);
    assert front + [r[|r| - 1]] == r;
    BulletsPrefix(lines, |front|, kind);
    assert lines[..|front|] == front;
  }

  lemma {:induction false} DigitsSucc(n: nat)
    ensures |NatToString(n + 1)| <= |NatToString(n)| + 1
  {
    if n >= 10 {
      DigitsSucc(n / 10);
      assert (n + 1) / 10 == n / 10 || (n + 1) / 10 == n / 10 + 1;
    }
  }

  lemma {:induction false} DigitsAdd(n: nat, k: nat)
    ensures |NatToString(n + k)| <= |NatToString(n)| + k
  {
    hide NatToString;
    if k > 0 {
      DigitsAdd(n, k - 1);
      DigitsSucc(n + (k - 1));
      assert n + (k - 1) + 1 == n + k;
    }
  }

  lemma BulletLong(l: Line)
    ensures l.Bullet? ==> |Render(l)| >= 2
  {
    hide LabelOf, NatToString;
  }

  lemma {:induction false} LenBullets(lines: seq<Line>)
    ensures Len(lines) >= CountBullets(lines)
  {
    hide Render, Lined;
    if lines != [] {
      var n := |lines| - 1;
      LenBullets(lines[..n]);
      assert lines[..n] + [lines[n]] == lines;
      LinedSnoc(lines[..n], lines[n]);
      BulletLong(lines[n]);
    }
  }

  /** The line that counts `n` and `k` more rules is at most `k` longer than the one that counts `n`. */
  lemma OmittedGrows(n: nat, k: nat)
    ensures |Render(Omitted(n + k))| <= |Render(Omitted(n))| + k
  {
    DigitsAdd(n, k);
    hide NatToString;
  }

  lemma {:induction false} ShrinkToDots(lines: seq<Line>, remaining: nat, budget: int)
    ensures Shrink(lines, remaining, budget) == [Ellipsis] <==> |Render(Omitted(remaining + CountBullets(lines)))| > budget
  {
    hide Render, Lined;
    if lines == [] {
      assert CountBullets(lines) == 0;
    } else if Len(lines + [Omitted(remaining)]) <= budget {
      LinedSnoc(lines, Omitted(remaining));
      LenBullets(lines);
      OmittedGrows(remaining, CountBullets(lines));
      assert (lines + [Omitted(remaining)])[|lines|] == Omitted(remaining);
    } else {
      var n := |lines| - 1;
      ShrinkToDots(lines[..n], if lines[n].Bullet? then remaining + 1 else remaining, budget);
    }
  }

  lemma FilledIsBlocks(groups: seq<Group>, budget: int)
    requires Renderable(groups)
    ensures var lines := Fill(groups, [], budget); lines != [Ellipsis] && CountBullets(lines) <= Total(groups)
  {
    hide Fill, Len, LabelOf, CountBullets, Total;
    FillFromNothing(groups, budget);
  }

  /** What is shown of the filled lines when rules are left over is the longest start of them that fits. */
  lemma ShownLongest(groups: seq<Group>, budget: int)
    requires Renderable(groups)
    ensures var lines, r := Fill(groups, [], budget), FinalLines(groups, budget);
            if CountBullets(lines) == Total(groups) then r == lines else LongestStart(lines, Total(groups), r, budget)
  {
    hide Fill, CountBullets, Total, Shrink, Renderable, LongestStart;
    FilledIsBlocks(groups, budget);
    var lines := Fill(groups, [], budget);
    if Remaining(groups, lines) > 0 {
      ShrinkLongest(lines, Remaining(groups, lines), budget);
    }
  }

  /** The bare dots are shown exactly when rules are left over and not even the line that counts all rules
      fits on its own. */
  lemma BareDotsExactly(groups: seq<Group>, budget: int)
    requires Renderable(groups)
    ensures FinalLines(groups, budget) == [Ellipsis] <==>
            Remaining(groups, Fill(groups, [], budget)) > 0 && |Render(Omitted(Total(groups)))| > budget
  {
    hide Fill, Render, CountBullets, Total, Shrink, Renderable;
    FilledIsBlocks(groups, budget);
    var lines := Fill(groups, [], budget);
    if Remaining(groups, lines) > 0 {
      ShrinkToDots(lines, Remaining(groups, lines), budget);
    }
  }

  /** They are never shown with the room of the pinned view, or more, for any number of rules of up to two
      hundred digits. */
  lemma NeverBareDots(groups: seq<Group>, budget: int)
    requires Renderable(groups) && budget >= 240 && |NatToString(Total(groups))| <= 200
    ensures FinalLines(groups, budget) != [Ellipsis]
  {
    hide FinalLines, Fill, NatToString, Total;
    BareDotsExactly(groups, budget);
  }

  /** The budget holds exactly when it leaves room for the three dots or there is nothing to show. */
  lemma BudgetKept(groups: seq<Group>, budget: int)
    requires Renderable(groups)
    ensures |Lined(FinalLines(groups, budget))| <= budget <==>
            budget >= 3 || (Total(groups) == 0 && budget >= 0)
  {
    TruncationHonest(groups, budget);
    FillFromNothing(groups, budget);
    LenOne(Ellipsis);
    var r, lines := FinalLines(groups, budget), Fill(groups, [], budget);
    if Total(groups) == 0 {
      NothingToShow(groups, budget);
    } else if budget < 3 {
      TinyBudget(groups, budget);
    } else {
      assert CountBullets(lines) == 0 ==> r != [] by { if lines == [] { ShrinkShape([], Total(groups), budget); } }
      assert CountBullets([]) == 0;
    }
  }

  lemma {:induction false} NothingToShow(groups: seq<Group>, budget: int)
    requires Total(groups) == 0
    ensures forall lines :: Fill(groups, lines, budget) == lines
    ensures FinalLines(groups, budget) == []
  {
    if groups != [] {
      NothingToShow(groups[1..], budget);
    }
  }

  lemma TinyBudget(groups: seq<Group>, budget: int)
    requires Renderable(groups) && Total(groups) > 0 && budget < 3
    ensures FinalLines(groups, budget) == [Ellipsis]
  {
    var lines := Fill(groups, [], budget);
    FillFromNothing(groups, budget);
    BlocksLong(lines);
    assert CountBullets([]) == 0;
    assert |Render(Omitted(Total(groups)))| > 3;
  }

  /** A label and a rule below it take at least a line feed and a bullet mark. */
  lemma BlocksLong(lines: seq<Line>)
    requires Blocks(lines)
    ensures lines != [] ==> Len(lines) >= 3
  {
    hide Render, Lined, LabelOf;
    if lines != [] {
      var n := |lines| - 1;
      assert lines[..n] + [lines[n]] == lines;
      LinedSnoc(lines[..n], lines[n]);
      BulletLong(lines[n]);
    }
  }

  // ----- which rules the caller is told were included -----

  /** The reported rules are those of the lines before any were taken off again. They are the shown rules
      exactly when nothing had to be taken off, and otherwise a strictly longer list. */
  lemma ReportedRules(groups: seq<Group>, budget: int)
    requires Renderable(groups)
    ensures var lines, r := Fill(groups, [], budget), FinalLines(groups, budget);
            var fits := lines == [] || Remaining(groups, lines) <= 0 || Len(lines + [Omitted(Remaining(groups, lines))]) <= budget;
            && BulletIds(r) <= BulletIds(lines)
            && (BulletIds(r) == BulletIds(lines) <==> fits)
  {
    hide Len, LabelOf;
    var lines, r := Fill(groups, [], budget), FinalLines(groups, budget);
    FillFromNothing(groups, budget);
    var remaining := Remaining(groups, lines);
    if remaining > 0 {
      if lines != [] {
        var n := |lines| - 1;
        ShrunkIds(lines[..n], remaining + 1, budget);
        assert BulletIds(lines) == BulletIds(lines[..n]) + [lines[n].item.id];
        if Len(lines + [Omitted(remaining)]) <= budget {
          IdsSnoc(lines, Omitted(remaining));
        }
      }
    }
  }

  lemma IdsSnoc(lines: seq<Line>, l: Line)
    ensures BulletIds(lines + [l]) == BulletIds(lines) + if l.Bullet? then [l.item.id] else []
  {
    assert (lines + [l])[..|lines|] == lines;
  }

  lemma {:induction false} ShrunkIds(lines: seq<Line>, remaining: nat, budget: int)
    ensures BulletIds(Shrink(lines, remaining, budget)) <= BulletIds(lines)
  {
    hide Len;
    if lines != [] {
      if Len(lines + [Omitted(remaining)]) <= budget {
        IdsSnoc(lines, Omitted(remaining));
      } else {
        var n := |lines| - 1;
        ShrunkIds(lines[..n], if lines[n].Bullet? then remaining + 1 else remaining, budget);
      }
    }
  }

  lemma FillFirstOfTwo(kind: string, a: Item, b: Item, budget: int)
    requires Len([Label(kind)]) <= budget && Len([Label(kind), Bullet(kind, a)]) <= budget
    requires Len([Label(kind), Bullet(kind, a), Bullet(kind, b)]) > budget
    ensures Fill([Group(kind, [a, b])], [], budget) == [Label(kind), Bullet(kind, a)]
  {
    hide Len;
    var g, title, first := Group(kind, [a, b]), Label(kind), Bullet(kind, a);
    assert [g][1..] == [] && [] + [title] == [title] && [title][1..] == [] && [a, b][1..] == [b];
    var lines := [title, first];
    assert [title] + [first] == lines && lines + [Bullet(kind, b)] == [title, first, Bullet(kind, b)];
    assert WithPrefix([], [title], budget) == Some([title]);
    assert TakeFit(lines, kind, [b], budget) == lines;
    assert TakeFit([title], kind, [a, b], budget) == lines;
  }

  lemma FirstTakenOff(kind: string, a: Item, b: Item, budget: int)
    requires Len([Label(kind)]) <= budget && Len([Label(kind), Bullet(kind, a)]) <= budget
    requires Len([Label(kind), Bullet(kind, a), Bullet(kind, b)]) > budget
    requires Len([Label(kind), Bullet(kind, a), Omitted(1)]) > budget
    requires Len([Label(kind), Omitted(2)]) <= budget
    ensures var groups := [Group(kind, [a, b])];
            && BulletIds(Fill(groups, [], budget)) == [a.id]
            && FinalLines(groups, budget) == [Label(kind), Omitted(2)]
  {
    FillFirstOfTwo(kind, a, b, budget);
    hide Len, Fill, TakeFit;
    var g, title, first := Group(kind, [a, b]), Label(kind), Bullet(kind, a);
    CountOfTwo(kind, a, b);
    hide CountBullets, BulletIds, Total;
    ShrinkOnce(title, first, budget);
    hide Shrink;
  }

  lemma CountOfTwo(kind: string, a: Item, b: Item)
    ensures var lines := [Label(kind), Bullet(kind, a)];
            BulletIds(lines) == [a.id] && CountBullets(lines) == 1 && Total([Group(kind, [a, b])]) == 2
  {
    var title, first := Label(kind), Bullet(kind, a);
    assert [] + [title] == [title] && [title] + [first] == [title, first];
    BulletsSnoc([], title, kind);
    BulletsSnoc([title], first, kind);
    IdsSnoc([], title);
    IdsSnoc([title], first);
    assert [Group(kind, [a, b])][1..] == [];
  }

  lemma ShrinkOnce(title: Line, first: Line, budget: int)
    requires first.Bullet? && Len([title, first, Omitted(1)]) > budget && Len([title, Omitted(2)]) <= budget
    ensures Shrink([title, first], 1, budget) == [title, Omitted(2)]
  {
    hide Len;
    var lines := [title, first];
    assert lines[..1] == [title] && lines[1] == first;
    assert lines + [Omitted(1)] == [title, first, Omitted(1)] && [title] + [Omitted(2)] == [title, Omitted(2)];
  }

  lemma LenTwo(a: Line, b: Line)
    ensures Len([a, b]) == |Render(a)| + 1 + |Render(b)|
  {
    hide Render;
    assert [a, b][..1] == [a] && Lined([a]) == Render(a);
  }

  lemma LenThree(a: Line, b: Line, c: Line)
    ensures Len([a, b, c]) == Len([a, b]) + 1 + |Render(c)|
  {
    hide Render;
    assert [a, b, c][..2] == [a, b];
  }

  /** A first rule that just fits is taken off again to make room for the line that counts the rules left
      out. */
  lemma JustFits(a: Item, b: Item)
    requires |a.text| == 291
    ensures var groups := [Group("custom_clause", [a, b])];
            && BulletIds(Fill(groups, [], 320)) == [a.id]
            && FinalLines(groups, 320) == [Label("custom_clause"), Omitted(2)]
  {
    var k := "custom_clause";
    CustomLabel();
    assert NatToString(2) == "2";
    LenOne(Label(k));
    LenTwo(Label(k), Bullet(k, a));
    LenTwo(Label(k), Omitted(2));
    LenThree(Label(k), Bullet(k, a), Bullet(k, b));
    LenThree(Label(k), Bullet(k, a), Omitted(1));
    hide Len, LabelOf, NatToString;
    FirstTakenOff(k, a, b, 320);
  }

  // ----- one kind of rules -----

  lemma {:induction false} LenPrefix(lines: seq<Line>, more: seq<Line>)
    ensures Len(lines) <= Len(lines + more)
  {
    hide Len, Render;
    if more == [] {
      assert lines + more == lines;
    } else {
      var n := |more| - 1;
      LenPrefix(lines, more[..n]);
      LenGrows(lines + more[..n], more[n]);
      assert lines + more[..n] + [more[n]] == lines + more;
    }
  }

  /** All there is to show of one kind. */
  function AllLines(g: Group): seq<Line> {
    [Label(g.kind)] + Bullets(g.kind, g.items)
  }

  lemma BulletsSplit(kind: string, items: seq<Item>, m: nat)
    requires m < |items|
    ensures Bullets(kind, items) == Bullets(kind, items[..m]) + ([Bullet(kind, items[m])] + Bullets(kind, items[m + 1..]))
  {
  }

  lemma FillOneKind(g: Group, budget: int)
    requires g.items != []
    ensures Len([Label(g.kind)]) > budget ==> Fill([g], [], budget) == []
    ensures Len([Label(g.kind)]) <= budget ==>
              var block := TakeFit([Label(g.kind)], g.kind, g.items, budget);
              Fill([g], [], budget) == if |block| == 1 then [] else block
  {
    hide Len, TakeFit;
    var title := [Label(g.kind)];
    assert [g][1..] == [] && [] + title == title && title[1..] == [];
    assert WithPrefix([], title, budget) == if Len(title) > budget then None else Some(title);
  }

  lemma TakenOfOneKind(g: Group, budget: int)
    requires g.items != [] && Len([Label(g.kind)]) <= budget
    ensures var block := TakeFit([Label(g.kind)], g.kind, g.items, budget);
            CountBullets(block) == |block| - 1 && (|block| - 1 == |g.items| <==> Len(AllLines(g)) <= budget)
  {
    var title := [Label(g.kind)];
    TitleCount(g.kind);
    hide Len, CountBullets, TakeFit;
    var m := TakeFitShape(title, g.kind, g.items, budget);
    var block := title + Bullets(g.kind, g.items[..m]);
    BulletsAppended(title, g.kind, g.items[..m], g.kind);
    if m < |g.items| {
      BulletsSplit(g.kind, g.items, m);
      LenPrefix(block + [Bullet(g.kind, g.items[m])], Bullets(g.kind, g.items[m + 1..]));
      assert block + [Bullet(g.kind, g.items[m])] + Bullets(g.kind, g.items[m + 1..]) == AllLines(g);
    } else {
      assert g.items[..m] == g.items;
    }
  }

  lemma TitleCount(kind: string)
    ensures CountBullets([Label(kind)]) == 0 && CountBullets([]) == 0
  {
    assert [Label(kind)][..0] == [];
  }

  /** Rules of a single kind are all shown exactly when their label and bullets fit the budget together. */
  lemma OneKindFits(g: Group, budget: int)
    requires g.items != []
    ensures CountBullets(Fill([g], [], budget)) == |g.items| <==> Len(AllLines(g)) <= budget
  {
    hide Len, Fill, CountBullets, TakeFit;
    FillOneKind(g, budget);
    TitleCount(g.kind);
    LenPrefix([Label(g.kind)], Bullets(g.kind, g.items));
    if Len([Label(g.kind)]) <= budget {
      TakenOfOneKind(g, budget);
    }
  }

  /** Kinds without rules leave no trace. */
  lemma {:induction false} FillSkips(groups: seq<Group>, i: nat, lines: seq<Line>, budget: int)
    requires i <= |groups| && forall j :: 0 <= j < i ==> groups[j].items == []
    ensures Fill(groups, lines, budget) == Fill(groups[i..], lines, budget)
  {
    hide Block;
    if i > 0 {
      FillSkips(groups[1..], i - 1, lines, budget);
      assert groups[1..][i - 1..] == groups[i..];
    } else {
      assert groups[0..] == groups;
    }
  }

  lemma CustomLabel()
    ensures LabelOf("custom_clause") == "Additional explicit rules"
  {
    LabelAt(KIND_LABELS, 11);
  }

  lemma {:induction false} LabelAt(table: seq<(string, string)>, i: nat)
    requires i < |table| && forall j, k :: 0 <= j < k < |table| ==> table[j].0 != table[k].0
    ensures LabelIn(table, table[i].0) == table[i].1
  {
    if i > 0 {
      LabelAt(table[1..], i - 1);
    }
  }
}
