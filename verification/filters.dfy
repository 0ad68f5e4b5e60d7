/**
  The filter builder of the stats command. Four presence tests (category,
  ip_address, `before > 0`, `after > 0`) choose one of sixteen hand-written
  SELECT statements; each branch records the dimensions it applies in the
  `filters` object of the response and binds their values to the statement's
  placeholders.

  The four branches for "ip_address present, category absent" keep the
  `category = ?` conjunct and bind `filters["category"]`, which those branches
  never set. The model binds SQL NULL there, so that conjunct, and with it the
  whole WHERE clause, is never true.
 */
module Filters {
  import opened Wrappers
  import opened Js
  import opened Strings
  import opened Store

  const CategoryWidth := 32
  const IpAddressWidth := 45

  /** The `filters` object: a key is present iff the builder applied that dimension. */
  datatype Applied = Applied(
    category: Option<string>,
    ipAddress: Option<string>,
    before: Option<int>,
    after: Option<int>)

  /** What the builder hands to the store: the reported filters and the WHERE clause with its bindings. */
  datatype Plan = Plan(filters: Applied, where: seq<Cond>)

  /**
    The sixteen branches, nested as the handler nests them: category, then
    ip_address, then (in `Dates`) `before > 0`, then `after > 0`.
   */
  function Build(category: Option<string>, ipAddress: Option<string>, before: Number, after: Number): (p: Plan)
    ensures p.filters.category.Some? <==> Truthy(category)
    ensures p.filters.category.Some? ==> p.filters.category.value == Slice(Trim(category.value), CategoryWidth)
    ensures p.filters.ipAddress.Some? <==> Truthy(ipAddress)
    ensures p.filters.ipAddress.Some? ==> p.filters.ipAddress.value == Slice(Trim(ipAddress.value), IpAddressWidth)
    ensures p.filters.before.Some? <==> Above(before, 0)
    ensures p.filters.before.Some? ==> p.filters.before.value == before.v
    ensures p.filters.after.Some? <==> Above(after, 0)
    ensures p.filters.after.Some? ==> p.filters.after.value == after.v
  {
    if Truthy(category) then
      var c := Slice(Trim(category.value), CategoryWidth);
      if Truthy(ipAddress) then
        var ip := Slice(Trim(ipAddress.value), IpAddressWidth);
        Dates(Some(c), Some(ip), [CategoryIs(Some(c)), IpAddressIs(ip)], before, after)
      else
        Dates(Some(c), None, [CategoryIs(Some(c))], before, after)
    else
      if Truthy(ipAddress) then
        var ip := Slice(Trim(ipAddress.value), IpAddressWidth);
        // filters["category"] is unset in these four statements and is bound as NULL
        Dates(None, Some(ip), [CategoryIs(None), IpAddressIs(ip)], before, after)
      else
        Dates(None, None, [], before, after)
  }

  /**
    The two innermost levels, written out identically under each of the four
    outer branches: `before > 0` adds `date <= ?`, then `after > 0` adds `date >= ?`.
   */
  function Dates(category: Option<string>, ipAddress: Option<string>, prefix: seq<Cond>, before: Number, after: Number): (p: Plan)
    ensures p.filters.category == category && p.filters.ipAddress == ipAddress
    ensures p.filters.before.Some? <==> Above(before, 0)
    ensures p.filters.before.Some? ==> p.filters.before.value == before.v
    ensures p.filters.after.Some? <==> Above(after, 0)
    ensures p.filters.after.Some? ==> p.filters.after.value == after.v
  {
    if Above(before, 0) then
      if Above(after, 0) then
        Plan(Applied(category, ipAddress, Some(before.v), Some(after.v)),
             prefix + [DateAtMost(before.v), DateAtLeast(after.v)])
      else
        Plan(Applied(category, ipAddress, Some(before.v), None),
             prefix + [DateAtMost(before.v)])
    else
      if Above(after, 0) then
        Plan(Applied(category, ipAddress, None, Some(after.v)),
             prefix + [DateAtLeast(after.v)])
      else
        Plan(Applied(category, ipAddress, None, None),
             prefix)
  }

  /**
    The same statements as a table over the four presence flags: a
    `category = ?` conjunct whenever category or ip_address is present (bound
    to the reported category, absent in the ip-only shapes), then one conjunct
    per other present dimension, in the order category, ip_address, before, after.
   */
  function Conjuncts(f: Applied): seq<Cond>
  {
    Leading(f.category, f.ipAddress) + Trailing(f.before, f.after)
  }

  /** The conjuncts on category and ip_address. */
  function Leading(category: Option<string>, ipAddress: Option<string>): seq<Cond>
  {
    (if category.Some? || ipAddress.Some? then [CategoryIs(category)] else [])
    + (if ipAddress.Some? then [IpAddressIs(ipAddress.value)] else [])
  }

  /** The conjuncts on the date bounds. */
  function Trailing(before: Option<int>, after: Option<int>): seq<Cond>
  {
    (if before.Some? then [DateAtMost(before.value)] else [])
    + (if after.Some? then [DateAtLeast(after.value)] else [])
  }

  /** The nested branches and the flag table build the same statement. */
  lemma BuildFollowsConjuncts(category: Option<string>, ipAddress: Option<string>, before: Number, after: Number)
    ensures var p := Build(category, ipAddress, before, after); p.where == Conjuncts(p.filters)
  {
    var c := if Truthy(category) then Some(Slice(Trim(category.value), CategoryWidth)) else None;
    var ip := if Truthy(ipAddress) then Some(Slice(Trim(ipAddress.value), IpAddressWidth)) else None;
    if c.Some? && ip.Some? {
      assert Leading(c, ip) == [CategoryIs(c), IpAddressIs(ip.value)];
    } else if c.Some? {
      assert Leading(c, ip) == [CategoryIs(c)];
    } else if ip.Some? {
      assert Leading(c, ip) == [CategoryIs(None), IpAddressIs(ip.value)];
    } else {
      assert Leading(c, ip) == [];
    }
    assert Build(category, ipAddress, before, after) == Dates(c, ip, Leading(c, ip), before, after);
    DatesFollowConjuncts(c, ip, Leading(c, ip), before, after);
  }

  lemma DatesFollowConjuncts(category: Option<string>, ipAddress: Option<string>, prefix: seq<Cond>, before: Number, after: Number)
    ensures var p := Dates(category, ipAddress, prefix, before, after);
      p.where == prefix + Trailing(p.filters.before, p.filters.after)
  {
  }

  /**
    What the WHERE clause of the chosen statement admits: every reported
    dimension conjunctively, and nothing at all when ip_address is reported
    without category.
   */
  lemma WhereAdmits(category: Option<string>, ipAddress: Option<string>, before: Number, after: Number, row: Row)
    ensures var p := Build(category, ipAddress, before, after);
      var f := p.filters;
      Satisfies(row, p.where) <==>
        && (f.category.Some? ==> row.hit.category == f.category)
        && (f.ipAddress.Some? ==> row.hit.ipAddress == f.ipAddress.value)
        && (f.before.Some? ==> row.hit.date <= f.before.value)
        && (f.after.Some? ==> row.hit.date >= f.after.value)
        && !(f.ipAddress.Some? && f.category.None?)
  {
    var p := Build(category, ipAddress, before, after);
    BuildFollowsConjuncts(category, ipAddress, before, after);
    ConjunctsAdmit(p.filters, row);
  }

  lemma ConjunctsAdmit(f: Applied, row: Row)
    ensures Satisfies(row, Conjuncts(f)) <==>
        && (f.category.Some? ==> row.hit.category == f.category)
        && (f.ipAddress.Some? ==> row.hit.ipAddress == f.ipAddress.value)
        && (f.before.Some? ==> row.hit.date <= f.before.value)
        && (f.after.Some? ==> row.hit.date >= f.after.value)
        && !(f.ipAddress.Some? && f.category.None?)
  {
    var w := Conjuncts(f);
    if f.category.Some? || f.ipAddress.Some? {
      assert CategoryIs(f.category) in w;
    }
    if f.ipAddress.Some? {
      assert IpAddressIs(f.ipAddress.value) in w;
    }
    if f.before.Some? {
      assert DateAtMost(f.before.value) in w;
    }
    if f.after.Some? {
      assert DateAtLeast(f.after.value) in w;
    }
  }

  /** An ip_address filter without a category filter selects no row, whatever the table holds. */
  lemma IpWithoutCategorySelectsNothing(
    category: Option<string>, ipAddress: Option<string>, before: Number, after: Number,
    t: Table, limit: nat, offset: nat)
    requires Truthy(ipAddress) && !Truthy(category)
    ensures Select(t, Build(category, ipAddress, before, after).where, limit, offset) == []
  {
    var p := Build(category, ipAddress, before, after);
    forall row | row in t
      ensures !Satisfies(row, p.where)
    {
      WhereAdmits(category, ipAddress, before, after, row);
    }
    assert forall row :: row !in Newest(t, p.where);
    SameMembersEmpty(Newest(t, p.where), []);
  }

  /** Without any filter, the statement has no WHERE conjunct and every row is a candidate, newest first. */
  lemma NoFilterSelectsAll(category: Option<string>, ipAddress: Option<string>, before: Number, after: Number, t: Table)
    requires !Truthy(category) && !Truthy(ipAddress) && !Above(before, 0) && !Above(after, 0)
    ensures Build(category, ipAddress, before, after).where == []
    ensures Newest(t, Build(category, ipAddress, before, after).where) == Reverse(t)
  {
    NoConditionsAllRows(t);
  }
}
