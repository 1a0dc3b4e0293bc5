/** The loops of `_render_projection`, and the status and coverage that `compile_behavior_policy` derives
    from it (brainstack/behavior_policy.py). */
module BehaviorPolicyCompiler {
  import opened BehaviorPolicy
  import opened Results
  import opened Sequences
  import opened Text

  // ----- rendering -----

  method AddPrefix(lines: seq<Line>, prefix: seq<Line>, budget: int) returns (r: Option<seq<Line>>)
    ensures r == WithPrefix(lines, prefix, budget)
  {
    hide Len;
    var trial := lines;
    assert prefix[0..] == prefix;
    for i := 0 to |prefix|
      invariant WithPrefix(trial, prefix[i..], budget) == WithPrefix(lines, prefix, budget)
    {
      Uncons(prefix, i);
      if Len(trial + [prefix[i]]) > budget {
        return None;
      }
      trial := trial + [prefix[i]];
    }
    return Some(trial);
  }

  method AddBullets(lines: seq<Line>, g: Group, budget: int) returns (block: seq<Line>)
    ensures block == TakeFit(lines, g.kind, g.items, budget)
  {
    hide Len;
    block := lines;
    assert g.items[0..] == g.items;
    for i := 0 to |g.items|
      invariant TakeFit(block, g.kind, g.items[i..], budget) == TakeFit(lines, g.kind, g.items, budget)
    {
      Uncons(g.items, i);
      if Len(block + [Bullet(g.kind, g.items[i])]) > budget {
        return;
      }
      block := block + [Bullet(g.kind, g.items[i])];
    }
  }

  method RenderBlock(lines: seq<Line>, g: Group, budget: int) returns (r: Option<seq<Line>>)
    ensures r == Block(lines, g, budget)
  {
    var trial := AddPrefix(lines, Prefix(lines, g.kind), budget);
    if trial.None? {
      return None;
    }
    var block := AddBullets(trial.value, g, budget);
    if |block| == |trial.value| {
      return None;
    }
    return Some(block);
  }

  method ShrinkLines(lines0: seq<Line>, remaining0: nat, budget: int) returns (r: seq<Line>)
    ensures r == Shrink(lines0, remaining0, budget)
  {
    hide Len, Render;
    var lines, remaining := lines0, remaining0;
    while lines != []
      invariant Shrink(lines, remaining, budget) == Shrink(lines0, remaining0, budget)
      decreases |lines|
    {
      if Len(lines + [Omitted(remaining)]) <= budget {
        return lines + [Omitted(remaining)];
      }
      var removed := lines[|lines| - 1];
      lines := lines[..|lines| - 1];
      if removed.Bullet? {
        remaining := remaining + 1;
      }
    }
    r := if |Render(Omitted(remaining))| <= budget then [Omitted(remaining)] else [Ellipsis];
  }

  lemma {:induction false} TotalFrom(groups: seq<Group>, i: nat)
    requires i < |groups|
    ensures Total(groups[i..]) == |groups[i].items| + Total(groups[i + 1..])
  {
    Uncons(groups, i);
  }

  lemma BlockCounts(lines: seq<Line>, g: Group, budget: int)
    requires Block(lines, g, budget).Some? && Blocks(lines) && LabelOf(g.kind) != ""
    ensures var b := Block(lines, g, budget).value;
            Blocks(b) && CountBullets(lines) < CountBullets(b) <= CountBullets(lines) + |g.items|
  {
    hide Block, Blocks, LabelOf, CountBullets;
    var m := BlockShape(lines, g, budget);
  }

  method FillLines(groups: seq<Group>, budget: int) returns (lines: seq<Line>, remaining: nat)
    requires AllLabelled(groups)
    ensures lines == Fill(groups, [], budget)
    ensures remaining == Total(groups) - CountBullets(lines)
  {
    hide Block, Blocks, LabelOf;
    lines := [];
    assert Blocks(lines) by { NoBlocks(); }
    var left := Total(groups);
    ghost var all := Fill(groups, [], budget);
    assert groups[0..] == groups;
    assert CountBullets(lines) == 0;
    hide CountBullets;
    for i := 0 to |groups|
      invariant Blocks(lines) && left == Total(groups) - CountBullets(lines) && left >= Total(groups[i..])
      invariant Fill(groups[i..], lines, budget) == all
    {
      Uncons(groups, i);
      TotalFrom(groups, i);
      if groups[i].items != [] {
        var block := RenderBlock(lines, groups[i], budget);
        if block.None? {
          break;
        }
        assert groups[i] in groups;
        BlockCounts(lines, groups[i], budget);
        left := left - (CountBullets(block.value) - CountBullets(lines));
        lines := block.value;
        if left <= 0 {
          NothingToShow(groups[i + 1..], budget);
          break;
        }
      }
    }
    assert groups[|groups|..] == [];
    remaining := left;
  }

  lemma NoBlocks()
    ensures Blocks([])
  {
  }

  method RenderProjection(clauses: seq<Clause>, budget: int)
    returns (text: string, truncated: bool, includedIds: seq<string>, total: nat)
    ensures var groups := GroupsFrom(clauses, KIND_LABELS);
            && total == Total(groups)
            && text == Lined(FinalLines(groups, budget))
            && includedIds == BulletIds(Fill(groups, [], budget))
            && (truncated <==> Remaining(groups, Fill(groups, [], budget)) > 0)
  {
    hide Fill, Lined, LabelOf, Strip, ItemsOf;
    var groups := GroupsFrom(clauses, KIND_LABELS);
    KindTable(clauses);
    total := Total(groups);
    if total == 0 {
      NothingToShow(groups, budget);
      EmptyLined();
      return "", false, [], 0;
    }
    var lines, remaining := FillLines(groups, budget);
    includedIds := BulletIds(lines);
    truncated := remaining > 0;
    if truncated {
      lines := ShrinkLines(lines, remaining, budget);
    }
    assert lines == FinalLines(groups, budget);
    text := Strip(Lined(lines));
    NothingToStrip(clauses, budget);
  }

  // ----- the groups are well formed -----

  ghost predicate GoodTable(table: seq<(string, string)>) {
    && (forall i :: 0 <= i < |table| ==> table[i].1 != "" && 'A' <= table[i].1[0] <= 'Z')
    && (forall i, j :: 0 <= i < j < |table| ==> table[i].0 != table[j].0)
  }

  /** The length and first letter of a kind's name tell its place in the table. */
  ghost function Place(kind: string): int {
    if kind == "" then -1
    else
      var n := |kind| * 1000 + kind[0] as int;
      if n == 15108 then 0 else if n == 15113 then 1 else if n == 17097 then 2 else if n == 11116 then 3
      else if n == 14099 then 4 else if n == 16118 then 5 else if n == 16115 then 6 else if n == 17102 then 7
      else if n == 18112 then 8 else if n == 22102 then 9 else if n == 18117 then 10 else if n == 13099 then 11 else -1
  }

  lemma TablePlaces()
    ensures forall i :: 0 <= i < |KIND_LABELS| ==> Place(KIND_LABELS[i].0) == i
  {
    var t := KIND_LABELS;
    assert Place(t[0].0) == 0 && Place(t[1].0) == 1 && Place(t[2].0) == 2 && Place(t[3].0) == 3;
    assert Place(t[4].0) == 4 && Place(t[5].0) == 5 && Place(t[6].0) == 6 && Place(t[7].0) == 7;
    assert Place(t[8].0) == 8 && Place(t[9].0) == 9 && Place(t[10].0) == 10 && Place(t[11].0) == 11;
  }

  lemma TableCapitals()
    ensures forall i :: 0 <= i < |KIND_LABELS| ==> KIND_LABELS[i].1 != "" && 'A' <= KIND_LABELS[i].1[0] <= 'Z'
  {
    var t := KIND_LABELS;
    assert t[0].1[0] == 'L' && t[1].1[0] == 'F' && t[2].1[0] == 'N' && t[3].1[0] == 'T' && t[4].1[0] == 'C' && t[5].1[0] == 'B';
    assert t[6].1[0] == 'S' && t[7].1[0] == 'F' && t[8].1[0] == 'P' && t[9].1[0] == 'F' && t[10].1[0] == 'U' && t[11].1[0] == 'A';
  }

  lemma TableIsGood()
    ensures GoodTable(KIND_LABELS)
  {
    TablePlaces();
    TableCapitals();
    hide Place, KIND_LABELS;
    forall i, j | 0 <= i < j < |KIND_LABELS| ensures KIND_LABELS[i].0 != KIND_LABELS[j].0 {
      assert Place(KIND_LABELS[i].0) != Place(KIND_LABELS[j].0);
    }
  }

  lemma {:induction false} LabelFromTable(table: seq<(string, string)>, kind: string)
    requires GoodTable(table)
    ensures LabelIn(table, kind) != "" ==> 'A' <= LabelIn(table, kind)[0] <= 'Z'
  {
    if table != [] {
      LabelFromTable(table[1..], kind);
    }
  }

  lemma KindTable(clauses: seq<Clause>)
    ensures Renderable(GroupsFrom(clauses, KIND_LABELS))
  {
    TableIsGood();
    var table := KIND_LABELS;
    var groups := GroupsFrom(clauses, table);
    forall g | g in groups ensures LabelOf(g.kind) != "" {
      var i :| 0 <= i < |groups| && groups[i] == g;
      LabelAt(table, i);
    }
  }

  // ----- which rules are shown, and how -----

  /** The rule is active, has something to show, and is of the kind: its own one if that is in the table, and
      otherwise a custom clause. */
  ghost predicate Belongs(kind: string, c: Clause) {
    && Strip(c.status) == "active"
    && kind == (if exists i :: 0 <= i < |KIND_LABELS| && KIND_LABELS[i].0 == Strip(c.kind) then Strip(c.kind) else "custom_clause")
    && Normalize(if c.shortForm != "" then c.shortForm else c.text) != ""
  }

  lemma {:induction false} LabelInTable(table: seq<(string, string)>, kind: string)
    requires GoodTable(table)
    ensures LabelIn(table, kind) != "" <==> exists i :: 0 <= i < |table| && table[i].0 == kind
  {
    if table != [] {
      LabelInTable(table[1..], kind);
      forall i | 0 < i < |table| ensures table[i] == table[1..][i - 1] {}
    }
  }

  lemma BelongsExactly(kind: string, c: Clause)
    ensures Belongs(kind, c) <==> Strip(c.status) == "active" && KindOf(c) == kind && SurfaceOf(c) != ""
  {
    hide Strip, Normalize, KIND_LABELS;
    TableIsGood();
    LabelInTable(KIND_LABELS, Strip(c.kind));
    NoEmptyKind();
    CustomIsKind();
    DashesKeepSize(Normalize(if c.shortForm != "" then c.shortForm else c.text));
  }

  lemma CustomIsKind()
    ensures exists i :: 0 <= i < |KIND_LABELS| && KIND_LABELS[i].0 == "custom_clause"
  {
    assert KIND_LABELS[11].0 == "custom_clause";
  }

  lemma NoEmptyKind()
    ensures forall i :: 0 <= i < |KIND_LABELS| ==> KIND_LABELS[i].0 != ""
  {
    TablePlaces();
    hide KIND_LABELS;
  }

  lemma {:induction false} DashesKeepSize(s: string)
    ensures |ReplaceDashes(s)| >= |s|
  {
    if s != "" {
      DashesKeepSize(s[1..]);
    }
  }

  ghost function BelongsTo(kind: string): Clause -> bool {
    c => Belongs(kind, c)
  }

  /** The sanitised short form, or text where there is none. */
  function ShownItem(c: Clause): Item {
    Item(c.id, ReplaceDashes(Normalize(if c.shortForm != "" then c.shortForm else c.text)))
  }

  lemma ItemsSnoc(clauses: seq<Clause>, kind: string)
    requires clauses != []
    ensures var n := |clauses| - 1;
            ItemsOf(clauses, kind) ==
            if Belongs(kind, clauses[n]) then ItemsOf(clauses[..n], kind) + [ShownItem(clauses[n])] else ItemsOf(clauses[..n], kind)
  {
    hide Strip, Normalize, KindOf, Belongs, ReplaceDashes;
    BelongsExactly(kind, clauses[|clauses| - 1]);
  }

  /** What a kind shows: in order, the rules that belong to it. */
  lemma {:induction false} ItemsExactly(clauses: seq<Clause>, kind: string) returns (at: seq<nat>)
    ensures Picks(clauses, BelongsTo(kind), ShownItem, ItemsOf(clauses, kind), at)
  {
    hide ItemsOf, Belongs, ShownItem, Picks;
    if clauses == [] {
      at := [];
      NoItems(kind);
      PicksNothing(BelongsTo(kind), ShownItem);
    } else {
      var n := |clauses| - 1;
      var front := ItemsExactly(clauses[..n], kind);
      ItemsSnoc(clauses, kind);
      PicksSnoc(clauses[..n], clauses[n], BelongsTo(kind), ShownItem, ItemsOf(clauses[..n], kind), front);
      assert clauses[..n] + [clauses[n]] == clauses;
      at := if Belongs(kind, clauses[n]) then front + [n] else front;
    }
  }

  lemma NoItems(kind: string)
    ensures ItemsOf([], kind) == []
  {
  }

  /** Of a sanitised text: no dash is left, what is no dash stays, and dashes are spelt out in place. */
  lemma DashesReplaced(s: string, t: string)
    ensures forall k :: 0 <= k < |ReplaceDashes(s)| ==> ReplaceDashes(s)[k] !in {'\U{2014}', '\U{2013}'}
    ensures (forall k :: 0 <= k < |s| ==> s[k] !in {'\U{2014}', '\U{2013}'}) ==> ReplaceDashes(s) == s
    ensures ReplaceDashes(s + ['\U{2014}'] + t) == ReplaceDashes(s) + "U+2014 EM DASH" + ReplaceDashes(t)
    ensures ReplaceDashes(s + ['\U{2013}'] + t) == ReplaceDashes(s) + "U+2013 EN DASH" + ReplaceDashes(t)
  {
    DashesAppend(s, ['\U{2014}'] + t);
    DashesAppend(s, ['\U{2013}'] + t);
    AppendMany(s, ['\U{2014}'], t);
    AppendMany(s, ['\U{2013}'], t);
    DashFirst(t);
    AppendMany(ReplaceDashes(s), "U+2014 EM DASH", ReplaceDashes(t));
    AppendMany(ReplaceDashes(s), "U+2013 EN DASH", ReplaceDashes(t));
    NoDashLeft(s);
  }

  lemma DashFirst(t: string)
    ensures ReplaceDashes(['\U{2014}'] + t) == "U+2014 EM DASH" + ReplaceDashes(t)
    ensures ReplaceDashes(['\U{2013}'] + t) == "U+2013 EN DASH" + ReplaceDashes(t)
  {
  }

  lemma {:induction false} NoDashLeft(s: string)
    ensures forall k :: 0 <= k < |ReplaceDashes(s)| ==> ReplaceDashes(s)[k] !in {'\U{2014}', '\U{2013}'}
    ensures (forall k :: 0 <= k < |s| ==> s[k] !in {'\U{2014}', '\U{2013}'}) ==> ReplaceDashes(s) == s
  {
    if s != "" {
      NoDashLeft(s[1..]);
      assert [s[0]] + s[1..] == s;
    }
  }

  lemma {:induction false} DashesAppend(s: string, t: string)
    ensures ReplaceDashes(s + t) == ReplaceDashes(s) + ReplaceDashes(t)
  {
    hide SpellDash;
    if s == "" {
      assert s + t == t;
    } else {
      DashesAppend(s[1..], t);
      assert (s + t)[1..] == s[1..] + t;
      AppendMany(SpellDash(s[0]), ReplaceDashes(s[1..]), ReplaceDashes(t));
    }
  }

  // ----- stripping the text changes nothing -----

  ghost predicate EndsInText(s: string) {
    s != "" && !IsSpace(s[|s| - 1])
  }

  lemma {:induction false} DashesKeepEnd(s: string)
    requires EndsInText(s)
    ensures EndsInText(ReplaceDashes(s))
  {
    SpaceFacts('H');
    SpaceFacts(s[|s| - 1]);
    if |s| > 1 {
      DashesKeepEnd(s[1..]);
    } else {
      assert ReplaceDashes(s[1..]) == "";
    }
  }

  lemma SanitizedEnd(s: string)
    ensures Sanitize(s) != "" ==> EndsInText(Sanitize(s))
  {
    if Words(s) != [] {
      JoinEnds(Words(s));
      DashesKeepEnd(Normalize(s));
    }
  }

  lemma {:induction false} ItemsEndInText(clauses: seq<Clause>, kind: string)
    ensures forall it :: it in ItemsOf(clauses, kind) ==> EndsInText(it.text)
  {
    hide Sanitize, KindOf, Strip, EndsInText;
    if clauses != [] {
      var c := clauses[|clauses| - 1];
      ItemsEndInText(clauses[..|clauses| - 1], kind);
      SanitizedEnd(if c.shortForm != "" then c.shortForm else c.text);
    }
  }

  lemma {:induction false} LinedEnds(lines: seq<Line>)
    requires lines != [] && Render(lines[0]) != "" && Render(lines[|lines| - 1]) != ""
    ensures Lined(lines) != "" && Lined(lines)[0] == Render(lines[0])[0]
    ensures var last := Render(lines[|lines| - 1]); Lined(lines)[|Lined(lines)| - 1] == last[|last| - 1]
    decreases |lines|
  {
    hide Render;
    if |lines| > 1 {
      LinedStart(lines[..|lines| - 1]);
    }
  }

  lemma {:induction false} LinedStart(lines: seq<Line>)
    requires lines != [] && Render(lines[0]) != ""
    ensures Lined(lines) != "" && Lined(lines)[0] == Render(lines[0])[0]
    decreases |lines|
  {
    hide Render;
    if |lines| > 1 {
      LinedStart(lines[..|lines| - 1]);
    }
  }

  /** Ends that are not whitespace: a label or the dots first, a rule, a closing bracket or a dot last. */
  ghost predicate CleanEnds(lines: seq<Line>) {
    lines != [] ==>
      && (lines[0].Omitted? || lines[0].Ellipsis? || (lines[0].Label? && LabelOf(lines[0].kind) != ""))
      && (lines[|lines| - 1].Omitted? || lines[|lines| - 1].Ellipsis?
          || (lines[|lines| - 1].Bullet? && EndsInText(lines[|lines| - 1].item.text)))
  }

  lemma CleanStripped(lines: seq<Line>)
    requires CleanEnds(lines)
    ensures Strip(Lined(lines)) == Lined(lines)
  {
    if lines == [] {
      EmptyLined();
    } else {
      var first, last := lines[0], lines[|lines| - 1];
      RenderedStart(first);
      RenderedEnd(last);
      hide Render, LabelOf, IsSpace;
      LinedEnds(lines);
      StripFixed(Lined(lines));
    }
  }

  lemma RenderedStart(l: Line)
    requires l.Omitted? || l.Ellipsis? || (l.Label? && LabelOf(l.kind) != "")
    ensures Render(l) != "" && !IsSpace(Render(l)[0])
  {
    SpaceFacts('.');
    if l.Label? {
      TableIsGood();
      LabelFromTable(KIND_LABELS, l.kind);
      SpaceFacts(LabelOf(l.kind)[0]);
    }
  }

  lemma RenderedEnd(l: Line)
    requires l.Omitted? || l.Ellipsis? || (l.Bullet? && EndsInText(l.item.text))
    ensures Render(l) != "" && !IsSpace(Render(l)[|Render(l)| - 1])
  {
    SpaceFacts('.');
    SpaceFacts(')');
  }

  lemma {:induction false} LastShown(lines: seq<Line>)
    requires lines != [] && lines[|lines| - 1].Bullet?
    ensures var l := lines[|lines| - 1]; l.item in BulletsOf(lines, l.kind)
  {
  }

  /** The last line of what is filled in is the bullet of a rule. */
  lemma LastIsRule(groups: seq<Group>, budget: int)
    requires Renderable(groups)
    ensures var lines := Fill(groups, [], budget);
            && Blocks(lines)
            && (lines != [] ==>
                  var l := lines[|lines| - 1];
                  l.Bullet? && exists g :: g in groups && g.kind == l.kind && l.item in g.items)
  {
    hide LabelOf, Len, CountBullets, Total, Shown, Renderable, Fill, BulletsOf;
    var lines := Fill(groups, [], budget);
    FillFromNothing(groups, budget);
    if lines != [] {
      LastShown(lines);
      var l := lines[|lines| - 1];
      assert !(forall g :: g in groups ==> g.kind != l.kind);
      var g :| g in groups && g.kind == l.kind;
      assert BulletsOf(lines, g.kind) <= g.items;
    }
  }

  lemma FilledEnds(clauses: seq<Clause>, budget: int)
    ensures CleanEnds(Fill(GroupsFrom(clauses, KIND_LABELS), [], budget))
  {
    hide LabelOf, ItemsOf, Fill, EndsInText, Renderable;
    var groups := GroupsFrom(clauses, KIND_LABELS);
    KindTable(clauses);
    LastIsRule(groups, budget);
    var lines := Fill(groups, [], budget);
    if lines != [] {
      var l := lines[|lines| - 1];
      var g :| g in groups && g.kind == l.kind && l.item in g.items;
      ItemsEndInText(clauses, g.kind);
    }
  }

  lemma NothingToStrip(clauses: seq<Clause>, budget: int)
    ensures var r := FinalLines(GroupsFrom(clauses, KIND_LABELS), budget); Strip(Lined(r)) == Lined(r)
  {
    var groups := GroupsFrom(clauses, KIND_LABELS);
    var lines := Fill(groups, [], budget);
    FilledEnds(clauses, budget);
    hide LabelOf, Len, ItemsOf, Strip, Lined, EndsInText, Fill;
    var remaining := Remaining(groups, lines);
    var r := FinalLines(groups, budget);
    if remaining > 0 {
      ShrinkShape(lines, remaining, budget);
      if r != [Ellipsis] && |r| > 1 {
        assert r[0] == r[..|r| - 1][0] == lines[0];
      }
    }
    CleanStripped(r);
  }

  // ----- compiling -----

  datatype Rule = Rule(id: string, section: string, text: string)

  datatype Coverage = Coverage(ruleId: string, injected: bool)

  datatype Policy = Policy(active: bool, text: string, truncated: bool, coverage: seq<Coverage>, omitted: nat)

  /** The clause of a rule: every rule is classified as a custom clause. */
  function ClauseOf(r: Rule): Clause {
    Clause(r.id, "custom_clause", "active", Sanitize(Normalize(r.text)), r.text)
  }

  function ClausesOf(rules: seq<Rule>): (cs: seq<Clause>)
    ensures |cs| == |rules|
  {
    seq(|rules|, i requires 0 <= i < |rules| => ClauseOf(rules[i]))
  }

  function Budget(charBudget: int): int {
    if charBudget < 320 then 320 else charBudget
  }

  function GroupsOf(rules: seq<Rule>): seq<Group> {
    GroupsFrom(ClausesOf(rules), KIND_LABELS)
  }

  function NonEmptyIds(ids: seq<string>): set<string> {
    set id | id in ids && id != ""
  }

  /** The ids the projection reports as included. */
  function IncludedIds(rules: seq<Rule>, charBudget: int): seq<string> {
    BulletIds(Fill(GroupsOf(rules), [], Budget(charBudget)))
  }

  function OmittedCount(rules: seq<Rule>, charBudget: int): int {
    Total(GroupsOf(rules)) - |NonEmptyIds(IncludedIds(rules, charBudget))|
  }

  method CompileBehaviorPolicy(rules: seq<Rule>, charBudget: int) returns (policy: Option<Policy>)
    ensures policy.Some? <==> rules != [] && Lined(FinalLines(GroupsOf(rules), Budget(charBudget))) != ""
    ensures policy.Some? ==>
              var p := policy.value;
              && p.text == Lined(FinalLines(GroupsOf(rules), Budget(charBudget)))
              && (|p.text| <= charBudget || |p.text| <= 320)
              && (p.active <==> OmittedCount(rules, charBudget) <= 0)
              && (p.truncated <==> Remaining(GroupsOf(rules), Fill(GroupsOf(rules), [], Budget(charBudget))) > 0)
              && p.omitted == (if OmittedCount(rules, charBudget) > 0 then OmittedCount(rules, charBudget) else 0)
              && |p.coverage| == |rules|
              && forall i :: 0 <= i < |rules| ==>
                   p.coverage[i] == Coverage(rules[i].id, rules[i].id in NonEmptyIds(IncludedIds(rules, charBudget)))
  {
    hide Fill, FinalLines, Lined, BulletIds, Total, Renderable;
    KindTable(ClausesOf(rules));
    BudgetKept(GroupsOf(rules), Budget(charBudget));
    hide KIND_LABELS;
    if rules == [] {
      return None;
    }
    var text, truncated, ids, total := RenderProjection(ClausesOf(rules), Budget(charBudget));
    if text == "" {
      return None;
    }
    var included := NonEmptyIds(ids);
    var coverage := [];
    for i := 0 to |rules|
      invariant |coverage| == i
      invariant forall k :: 0 <= k < i ==> coverage[k] == Coverage(rules[k].id, rules[k].id in included)
    {
      coverage := coverage + [Coverage(rules[i].id, rules[i].id in included)];
    }
    var omitted := if total > |included| then total - |included| else 0;
    policy := Some(Policy(omitted == 0, text, truncated, coverage, omitted));
  }

  // ----- what an active policy means -----

  /** Rules as the contract parser makes them: text that is not blank, and a name. */
  ghost predicate GoodRules(rules: seq<Rule>) {
    forall i :: 0 <= i < |rules| ==> !Blank(rules[i].text) && rules[i].id != ""
  }

  function SurfaceItems(rules: seq<Rule>): (items: seq<Item>)
    ensures |items| == |rules|
  {
    seq(|rules|, i requires 0 <= i < |rules| => Item(rules[i].id, SurfaceOf(ClauseOf(rules[i]))))
  }

  lemma NotBlankSurface(r: Rule)
    requires !Blank(r.text)
    ensures SurfaceOf(ClauseOf(r)) != ""
  {
    var t := Normalize(r.text);
    NormalizeIdempotent(r.text);
    WordsOfBlank(r.text);
    WordsOfBlank(t);
    hide Normalize, Words, Join;
    NotBlankSanitized(t);
    NotBlankSanitized(Sanitize(t));
  }

  lemma CompiledKind(r: Rule)
    ensures KindOf(ClauseOf(r)) == "custom_clause" && Strip("active") == "active"
  {
    CustomLabel();
    SpaceFacts('a');
    SpaceFacts('e');
    SpaceFacts('c');
    hide IsSpace;
    StripFixed("active");
    StripFixed("custom_clause");
    hide Strip, LabelOf;
  }

  lemma NotBlankSanitized(s: string)
    requires !Blank(s)
    ensures !Blank(Sanitize(s)) && Sanitize(s) != ""
  {
    WordsOfBlank(s);
    JoinEnds(Words(s));
    DashesKeepEnd(Normalize(s));
    var t := Sanitize(s);
    hide Sanitize, Normalize, IsSpace;
    assert !IsSpace(t[|t| - 1]);
  }

  lemma {:induction false} CompiledItems(rules: seq<Rule>, kind: string)
    requires GoodRules(rules)
    ensures ItemsOf(ClausesOf(rules), kind) == if kind == "custom_clause" then SurfaceItems(rules) else []
  {
    hide SurfaceOf, KindOf, Strip, Blank, Sanitize, Normalize;
    if rules != [] {
      var n := |rules| - 1;
      CompiledItems(rules[..n], kind);
      assert ClausesOf(rules)[..n] == ClausesOf(rules[..n]);
      assert SurfaceItems(rules) == SurfaceItems(rules[..n]) + [Item(rules[n].id, SurfaceOf(ClauseOf(rules[n])))];
      hide SurfaceItems;
      NotBlankSurface(rules[n]);
      CompiledKind(rules[n]);
    }
  }

  lemma {:induction false} TotalOfOne(groups: seq<Group>, i: nat)
    requires i < |groups| && forall j :: 0 <= j < |groups| && j != i ==> groups[j].items == []
    ensures Total(groups) == |groups[i].items|
  {
    if i > 0 {
      TotalOfOne(groups[1..], i - 1);
    } else {
      TotalOfNone(groups[1..]);
    }
  }

  lemma {:induction false} TotalOfNone(groups: seq<Group>)
    requires forall j :: 0 <= j < |groups| ==> groups[j].items == []
    ensures Total(groups) == 0
  {
    if groups != [] {
      TotalOfNone(groups[1..]);
    }
  }

  lemma CompiledGroup(rules: seq<Rule>, i: nat)
    requires GoodRules(rules) && i < |KIND_LABELS|
    ensures GroupsOf(rules)[i] == Group(KIND_LABELS[i].0, if i == 11 then SurfaceItems(rules) else [])
    ensures KIND_LABELS[i].0 == "custom_clause" <==> i == 11
  {
    TablePlaces();
    assert |KIND_LABELS| == 12 && KIND_LABELS[11].0 == "custom_clause";
    hide KIND_LABELS, Place, SurfaceItems, ItemsOf, ClausesOf;
    assert i != 11 ==> Place(KIND_LABELS[i].0) != Place(KIND_LABELS[11].0);
    CompiledItems(rules, KIND_LABELS[i].0);
  }

  /** Only the group of custom clauses holds rules, and it holds all of them. */
  lemma CompiledGroups(rules: seq<Rule>)
    requires GoodRules(rules)
    ensures Renderable(GroupsOf(rules)) && Total(GroupsOf(rules)) == |rules|
    ensures Group("custom_clause", SurfaceItems(rules)) in GroupsOf(rules)
    ensures forall g :: g in GroupsOf(rules) && g.kind != "custom_clause" ==> g.items == []
  {
    hide SurfaceItems, GroupsOf, Renderable, Total, GoodRules, KIND_LABELS;
    GroupsRenderable(rules);
    EachCompiledGroup(rules);
    var groups := GroupsOf(rules);
    TotalOfOne(groups, 11);
    assert groups[11] in groups;
  }

  lemma GroupsRenderable(rules: seq<Rule>)
    ensures Renderable(GroupsOf(rules))
  {
    hide KIND_LABELS, Renderable;
    KindTable(ClausesOf(rules));
  }

  lemma EachCompiledGroup(rules: seq<Rule>)
    requires GoodRules(rules)
    ensures |GroupsOf(rules)| == 12
    ensures forall i :: 0 <= i < 12 ==> GroupsOf(rules)[i].items == (if i == 11 then SurfaceItems(rules) else [])
    ensures forall i :: 0 <= i < 12 ==> (GroupsOf(rules)[i].kind == "custom_clause" <==> i == 11)
  {
    KindTable(ClausesOf(rules));
    assert |GroupsOf(rules)| == |KIND_LABELS| == 12;
    hide KIND_LABELS, SurfaceItems, GroupsOf, GoodRules;
    forall i | 0 <= i < 12
      ensures GroupsOf(rules)[i].items == (if i == 11 then SurfaceItems(rules) else [])
      ensures GroupsOf(rules)[i].kind == "custom_clause" <==> i == 11
    {
      CompiledGroup(rules, i);
    }
  }

  lemma {:induction false} IdsOfOneKind(lines: seq<Line>, kind: string)
    requires forall k :: k != kind ==> BulletsOf(lines, k) == []
    ensures |BulletIds(lines)| == CountBullets(lines) == |BulletsOf(lines, kind)|
    ensures forall i :: 0 <= i < |BulletIds(lines)| ==> BulletIds(lines)[i] == BulletsOf(lines, kind)[i].id
  {
    if lines != [] {
      var n := |lines| - 1;
      forall k | k != kind ensures BulletsOf(lines[..n], k) == [] {
        BulletsPrefix(lines, n, k);
      }
      IdsOfOneKind(lines[..n], kind);
      if lines[n].Bullet? {
        LastShown(lines);
      }
    }
  }

  /** A list has as many distinct non-empty entries as it is long exactly when none is empty or repeated. */
  lemma {:induction false} IdsCounted(ids: seq<string>)
    ensures |NonEmptyIds(ids)| <= |ids|
    ensures |NonEmptyIds(ids)| == |ids| <==> NoRepeats(ids) && "" !in ids
  {
    if ids != [] {
      var n := |ids| - 1;
      var front, x := ids[..n], ids[n];
      IdsCounted(front);
      assert forall id :: id in ids <==> id in front || id == x;
      if x == "" || x in front {
        assert NonEmptyIds(ids) == NonEmptyIds(front);
        assert x in front ==> exists i :: 0 <= i < n && ids[i] == ids[n];
      } else {
        assert NonEmptyIds(ids) == NonEmptyIds(front) + {x};
        assert NoRepeats(front) ==> NoRepeats(ids);
        assert NoRepeats(ids) ==> NoRepeats(front);
      }
    }
  }

  ghost function RuleIds(rules: seq<Rule>): (ids: seq<string>)
    ensures |ids| == |rules| && forall i :: 0 <= i < |rules| ==> ids[i] == rules[i].id
  {
    seq(|rules|, i requires 0 <= i < |rules| => rules[i].id)
  }

  lemma IncludedPrefix(rules: seq<Rule>, charBudget: int)
    requires GoodRules(rules)
    ensures IncludedIds(rules, charBudget) <= RuleIds(rules)
    ensures |IncludedIds(rules, charBudget)| == CountBullets(Fill(GroupsOf(rules), [], Budget(charBudget)))
  {
    hide BulletsOf, CountBullets, LabelOf, Len, Fill, Total, Shown, GroupsOf, Blocks, GoodRules, Renderable, BulletIds;
    var groups := GroupsOf(rules);
    CompiledGroups(rules);
    var lines := Fill(groups, [], Budget(charBudget));
    FillFromNothing(groups, Budget(charBudget));
    OnlyCustomRules(groups, lines);
    IdsOfOneKind(lines, "custom_clause");
    var g := Group("custom_clause", SurfaceItems(rules));
    assert BulletsOf(lines, g.kind) <= g.items;
    forall i | 0 <= i < |BulletIds(lines)| ensures BulletIds(lines)[i] == rules[i].id {
      assert BulletsOf(lines, g.kind)[i] == g.items[i];
    }
  }

  lemma OnlyCustomRules(groups: seq<Group>, lines: seq<Line>)
    requires PrefixPerKind(groups, lines)
    requires forall g :: g in groups && g.kind != "custom_clause" ==> g.items == []
    requires forall k :: (forall g :: g in groups ==> g.kind != k) ==> BulletsOf(lines, k) == []
    ensures forall k :: k != "custom_clause" ==> BulletsOf(lines, k) == []
  {
    hide BulletsOf;
    forall k | k != "custom_clause" ensures BulletsOf(lines, k) == [] {
      if h :| h in groups && h.kind == k {
        assert BulletsOf(lines, h.kind) <= h.items;
      }
    }
  }

  /** The one kind that compiled rules have. */
  function RuleGroup(rules: seq<Rule>): Group {
    Group("custom_clause", SurfaceItems(rules))
  }

  /** Compiled rules are rendered as the rules of one kind. */
  lemma CompiledFill(rules: seq<Rule>, budget: int)
    requires GoodRules(rules)
    ensures Fill(GroupsOf(rules), [], budget) == Fill([RuleGroup(rules)], [], budget)
    ensures FinalLines(GroupsOf(rules), budget) == FinalLines([RuleGroup(rules)], budget)
  {
    hide Fill, GroupsOf, Total, Shrink, GoodRules, CountBullets, Renderable, RuleGroup;
    CompiledGroups(rules);
    EmptyButLast(rules);
    FillSkips(GroupsOf(rules), 11, [], budget);
    assert GroupsOf(rules)[11..] == [RuleGroup(rules)];
    RuleCount(rules);
  }

  lemma EmptyButLast(rules: seq<Rule>)
    requires GoodRules(rules)
    ensures |GroupsOf(rules)| == 12 && GroupsOf(rules)[11] == RuleGroup(rules)
    ensures forall i :: 0 <= i < 11 ==> GroupsOf(rules)[i].items == []
  {
    assert |GroupsOf(rules)| == |KIND_LABELS| == 12;
    hide GroupsOf, SurfaceItems, GoodRules;
    CompiledGroup(rules, 11);
    forall i | 0 <= i < 11 ensures GroupsOf(rules)[i].items == [] {
      CompiledGroup(rules, i);
    }
  }

  lemma RuleCount(rules: seq<Rule>)
    ensures Total([RuleGroup(rules)]) == |rules|
  {
    assert [RuleGroup(rules)][1..] == [];
  }

  /** Nothing is cut off exactly when the label and the bullets of all rules fit the budget together. */
  lemma NothingCutOff(rules: seq<Rule>, charBudget: int)
    requires GoodRules(rules)
    ensures Remaining(GroupsOf(rules), Fill(GroupsOf(rules), [], Budget(charBudget))) == 0 <==>
            rules == [] || Len(AllLines(RuleGroup(rules))) <= Budget(charBudget)
  {
    hide Fill, GroupsOf, Total, GoodRules, CountBullets, Len, Budget, AllLines, Shown;
    var lines := Fill(GroupsOf(rules), [], Budget(charBudget));
    CompiledGroups(rules);
    CompiledFill(rules, Budget(charBudget));
    if rules == [] {
      FillFromNothing(GroupsOf(rules), Budget(charBudget));
    } else {
      OneKindFits(RuleGroup(rules), Budget(charBudget));
    }
  }

  /** A policy is active exactly when its label and all its bullets fit the budget together and no two rules
      share an id. */
  lemma ActiveExactly(rules: seq<Rule>, charBudget: int)
    requires GoodRules(rules)
    ensures OmittedCount(rules, charBudget) <= 0 <==>
            (rules == [] || Len(AllLines(RuleGroup(rules))) <= Budget(charBudget)) && NoRepeats(RuleIds(rules))
  {
    hide Len, AllLines, Fill, GroupsOf, Remaining;
    NothingCutOff(rules, charBudget);
    ActiveUncut(rules, charBudget);
  }

  lemma CompiledTotal(rules: seq<Rule>)
    requires GoodRules(rules)
    ensures Total(GroupsOf(rules)) == |rules|
  {
    hide GroupsOf, Total, Renderable;
    CompiledGroups(rules);
  }

  lemma ActiveUncut(rules: seq<Rule>, charBudget: int)
    requires GoodRules(rules)
    ensures OmittedCount(rules, charBudget) <= 0 <==>
            Remaining(GroupsOf(rules), Fill(GroupsOf(rules), [], Budget(charBudget))) == 0 && NoRepeats(RuleIds(rules))
  {
    hide BulletIds, CountBullets, LabelOf, Fill, Total, GroupsOf, Blank, Renderable, NonEmptyIds, IncludedIds;
    CompiledTotal(rules);
    IncludedPrefix(rules, charBudget);
    var ids := IncludedIds(rules, charBudget);
    IdsCounted(ids);
    if |ids| == |rules| {
      assert ids == RuleIds(rules);
    }
  }

  /** An active policy shows every rule: each has its bullet among the lines of the text. */
  lemma ActiveShowsEveryRule(rules: seq<Rule>, charBudget: int, i: nat)
    requires GoodRules(rules) && i < |rules| && OmittedCount(rules, charBudget) <= 0
    ensures Bullet("custom_clause", Item(rules[i].id, SurfaceOf(ClauseOf(rules[i])))) in
            FinalLines(GroupsOf(rules), Budget(charBudget))
  {
    var groups := GroupsOf(rules);
    CompiledGroups(rules);
    ActiveUncut(rules, charBudget);
    FillFromNothing(groups, Budget(charBudget));
    var lines := Fill(groups, [], Budget(charBudget));
    var g := Group("custom_clause", SurfaceItems(rules));
    hide BulletsOf, CountBullets, LabelOf, Len, Fill, Total, GroupsOf, Shown, Blocks, SurfaceOf, ClauseOf, OmittedCount;
    assert BulletsOf(lines, g.kind) == g.items;
    ShownIsALine(lines, g.kind, i);
  }

  /** So its sanitised text, behind a dash, is in the text of the policy. */
  lemma ActiveTextHasRule(rules: seq<Rule>, charBudget: int, i: nat) returns (at: nat)
    requires GoodRules(rules) && i < |rules| && OmittedCount(rules, charBudget) <= 0
    ensures OccursAt(Lined(FinalLines(GroupsOf(rules), Budget(charBudget))), "- " + SurfaceOf(ClauseOf(rules[i])), at)
  {
    hide Fill, GroupsOf, FinalLines, SurfaceOf, ClauseOf, Lined, OccursAt;
    ActiveShowsEveryRule(rules, charBudget, i);
    at := LineInText(FinalLines(GroupsOf(rules), Budget(charBudget)), Bullet("custom_clause", Item(rules[i].id, SurfaceOf(ClauseOf(rules[i])))));
  }

  lemma {:induction false} LineInText(lines: seq<Line>, l: Line) returns (at: nat)
    requires l in lines
    ensures OccursAt(Lined(lines), Render(l), at)
    decreases |lines|
  {
    hide Render;
    var n := |lines| - 1;
    if lines[n] == l {
      at := |Lined(lines)| - |Render(l)|;
    } else {
      at := LineInText(lines[..n], l);
      assert Lined(lines)[at..at + |Render(l)|] == Lined(lines[..n])[at..at + |Render(l)|];
    }
  }

  lemma {:induction false} ShownIsALine(lines: seq<Line>, kind: string, i: nat)
    requires i < |BulletsOf(lines, kind)|
    ensures Bullet(kind, BulletsOf(lines, kind)[i]) in lines
  {
    var n := |lines| - 1;
    if i < |BulletsOf(lines[..n], kind)| {
      ShownIsALine(lines[..n], kind, i);
    } else {
      assert lines[n] == Bullet(kind, BulletsOf(lines, kind)[i]);
    }
  }

  // ----- a rule that is reported and not shown -----

  lemma LettersShown(n: nat, id: string)
    requires n > 0
    ensures var r := Rule(id, "", Letters(n)); SurfaceOf(ClauseOf(r)) == Letters(n) && !Blank(r.text)
  {
    var w := Letters(n);
    SpaceFacts('x');
    hide IsSpace;
    WordsOfWord(w);
    assert Join([w]) == w && !IsSpace(w[0]);
    NoDashLeft(w);
  }

  /** Two rules of 291 letters each. */
  function LongRules(): seq<Rule> {
    [Rule("a", "", Letters(291)), Rule("b", "", Letters(291))]
  }

  /** Compiled with the smallest budget, the first rule is reported as included and its bullet is not among
      the lines: only the label and the count of both rules are. */
  lemma ReportedButNotShown()
    ensures GoodRules(LongRules())
    ensures IncludedIds(LongRules(), 0) == ["a"]
    ensures FinalLines(GroupsOf(LongRules()), Budget(0)) == [Label("custom_clause"), Omitted(2)]
  {
    hide Letters, SurfaceOf, ClauseOf, Blank, Fill, GroupsOf, BulletIds, FinalLines, ReplaceDashes, Total;
    LettersShown(291, "a");
    LettersShown(291, "b");
    var a, b := Item("a", Letters(291)), Item("b", Letters(291));
    assert SurfaceItems(LongRules()) == [a, b];
    hide SurfaceItems;
    CompiledFill(LongRules(), 320);
    JustFits(a, b);
  }

  /** What a caller is told of these rules: the first one is injected, in a text that shows neither. */
  method InjectedButNotShown() returns (p: Policy)
    ensures |p.coverage| == 2 && p.coverage[0] == Coverage("a", true) && p.truncated && !p.active
    ensures p.text == "Additional explicit rules:" + "\n" + "... (2 additional compiled rules omitted)"
  {
    var rules := LongRules();
    ReportedButNotShown();
    CustomLabel();
    hide Fill, GroupsOf, Total, GoodRules, Letters, LabelOf, BulletIds, FinalLines;
    LabelAndCount();
    TwoAreMore(rules);
    var policy := CompileBehaviorPolicy(rules, 0);
    p := policy.value;
  }

  lemma LabelAndCount()
    ensures Lined([Label("custom_clause"), Omitted(2)]) ==
            "Additional explicit rules:" + "\n" + "... (2 additional compiled rules omitted)"
  {
    CustomLabel();
    hide LabelOf;
    assert NatToString(2) == "2";
    var lines := [Label("custom_clause"), Omitted(2)];
    assert lines[..1] == [Label("custom_clause")];
  }

  lemma TwoAreMore(rules: seq<Rule>)
    requires GoodRules(rules) && |rules| == 2 && |IncludedIds(rules, 320)| == 1
    ensures OmittedCount(rules, 320) > 0
    ensures Remaining(GroupsOf(rules), Fill(GroupsOf(rules), [], Budget(320))) > 0
  {
    CompiledGroups(rules);
    IncludedPrefix(rules, 320);
    hide Fill, GroupsOf, Total, GoodRules, BulletIds, CountBullets;
    IdsCounted(IncludedIds(rules, 320));
  }
}
