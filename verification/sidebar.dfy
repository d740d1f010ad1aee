/** The sidebar's accordion: which menu item, if any, has its sub-menu
    open, and how clicks and the collapse button change that. */
module Sidebar {
  import opened Wrappers

  /** A menu entry. An entry without sub-items is a plain link. */
  datatype MenuItem = MenuItem(name: string, subItems: Option<seq<string>>)

  /** A block of the menu, optionally headed by a section title. */
  datatype Group = Group(section: Option<string>, items: seq<MenuItem>)

  function Link(name: string): MenuItem {
    MenuItem(name, None)
  }

  function Parent(name: string, subItems: seq<string>): MenuItem {
    MenuItem(name, Some(subItems))
  }

  /** The entries under the ADMIN heading. */
  const AdminEntries: seq<MenuItem> := [
    Link("Dashboard"),
    Parent("Products", ["Product List", "Create Product", "Product Reviews"]),
    Parent("Categories", ["Category List", "Add Category"]),
    Parent("Brands", ["Brand List", "Add Brand"]),
    Parent("Orders", ["Order List", "Order Details", "Invoice"]),
    Link("Customers"),
    Parent("Refunds", ["Refund Requests", "Approved Refunds"]),
    Parent("Sellers", ["Seller List", "Seller Payouts", "Seller Reviews"])
  ]

  /** The entries under the VENDOR heading. */
  const VendorEntries: seq<MenuItem> := [
    Parent("Earnings", ["Earning History", "Payouts"]),
    Link("Refund Request"),
    Link("Reviews"),
    Link("Shop Setting"),
    Link("Support Tickets"),
    Link("Account Settings"),
    Link("Site Settings")
  ]

  /** The menu the sidebar renders: each heading is a group of its own with
      no entries, followed by a group holding the entries. */
  const Menu: seq<Group> := [
    Group(Some("ADMIN"), []),
    Group(None, AdminEntries),
    Group(Some("VENDOR"), []),
    Group(None, VendorEntries)
  ]

  /** The entries of all groups, in the order they are rendered. */
  function Entries(groups: seq<Group>): (r: seq<MenuItem>)
    ensures forall g, i :: 0 <= g < |groups| && 0 <= i < |groups[g].items| ==> groups[g].items[i] in r
    ensures forall i :: 0 <= i < |r| ==> exists g :: 0 <= g < |groups| && r[i] in groups[g].items
  {
    if |groups| == 0 then [] else groups[0].items + Entries(groups[1..])
  }

  predicate DistinctNames(items: seq<MenuItem>) {
    forall i, j :: 0 <= i < j < |items| ==> items[i].name != items[j].name
  }

  /** The names of a list of entries, in order. */
  function Names(items: seq<MenuItem>): (r: seq<string>)
    ensures |r| == |items|
    ensures forall i :: 0 <= i < |items| ==> r[i] == items[i].name
  {
    seq(|items|, i requires 0 <= i < |items| => items[i].name)
  }

  lemma AdminNamesDistinct()
    ensures DistinctNames(AdminEntries)
  {
    assert Names(AdminEntries) == ["Dashboard", "Products", "Categories", "Brands", "Orders", "Customers", "Refunds", "Sellers"];
  }

  lemma VendorNamesDistinct()
    ensures DistinctNames(VendorEntries)
  {
    assert Names(VendorEntries) == ["Earnings", "Refund Request", "Reviews", "Shop Setting", "Support Tickets", "Account Settings", "Site Settings"];
  }

  lemma AdminVendorNamesDisjoint()
    ensures forall i, j :: 0 <= i < |AdminEntries| && 0 <= j < |VendorEntries| ==> AdminEntries[i].name != VendorEntries[j].name
  {
  }

  /** Two lists without repeated names, and without a name in common, make
      a list without repeated names. */
  lemma DistinctConcat(a: seq<MenuItem>, b: seq<MenuItem>)
    requires DistinctNames(a) && DistinctNames(b)
    requires forall i, j :: 0 <= i < |a| && 0 <= j < |b| ==> a[i].name != b[j].name
    ensures DistinctNames(a + b)
  {
    forall i, j | 0 <= i < j < |a + b|
      ensures (a + b)[i].name != (a + b)[j].name
    {
      if j < |a| {
      } else if i >= |a| {
        assert (a + b)[i] == b[i - |a|] && (a + b)[j] == b[j - |a|];
      } else {
        assert (a + b)[j] == b[j - |a|];
      }
    }
  }

  /** The menu's entries are the ADMIN entries followed by the VENDOR ones. */
  lemma MenuEntries()
    ensures Entries(Menu) == AdminEntries + VendorEntries
  {
    assert Entries(Menu[3..]) == VendorEntries + Entries(Menu[4..]);
    assert Entries(Menu[2..]) == Menu[2].items + Entries(Menu[3..]);
    assert Entries(Menu[1..]) == AdminEntries + Entries(Menu[2..]);
  }

  /** No two entries of the menu share a name, so a name picks one entry. */
  lemma MenuNamesDistinct()
    ensures DistinctNames(Entries(Menu))
  {
    MenuEntries();
    AdminNamesDistinct();
    VendorNamesDistinct();
    AdminVendorNamesDisjoint();
    DistinctConcat(AdminEntries, VendorEntries);
  }

  // ---------------------------------------------------------------------
  // Accordion state

  /** Whether the sidebar is collapsed to icons, and the name of the entry
      whose sub-menu is open (`expandedMenu`, null when none is). */
  datatype State = State(collapsed: bool, expanded: Option<string>)

  const Initial: State := State(false, None)

  /** `toggleMenu(name)`. */
  function ToggleMenu(st: State, name: string): (r: State)
    ensures r.collapsed == st.collapsed
    ensures st.collapsed ==> r == st
    ensures !st.collapsed ==> (r.expanded == None <==> st.expanded == Some(name))
    ensures r.expanded.Some? ==> r.expanded == st.expanded || r.expanded == Some(name)
    ensures !st.collapsed && st.expanded != Some(name) ==> r.expanded == Some(name)
  {
    if st.collapsed then st
    else if st.expanded == Some(name) then st.(expanded := None)
    else st.(expanded := Some(name))
  }

  /** Toggling the same entry twice from a state where it is closed closes
      every sub-menu; from a state where it is the open one it comes back. */
  lemma ToggleTwice(st: State, name: string)
    requires !st.collapsed
    ensures st.expanded != Some(name) ==> ToggleMenu(ToggleMenu(st, name), name).expanded == None
    ensures st.expanded == Some(name) ==> ToggleMenu(ToggleMenu(st, name), name) == st
  {
  }

  datatype Event = Click(item: MenuItem) | ToggleCollapse

  /** One user action. Only entries with sub-items call `toggleMenu`; the
      collapse button flips `isCollapsed` and leaves `expandedMenu` alone. */
  function Step(st: State, e: Event): (r: State)
    ensures e.Click? && e.item.subItems.None? ==> r == st
    ensures e.ToggleCollapse? ==> r.expanded == st.expanded && r.collapsed != st.collapsed
  {
    match e
    case Click(item) => if item.subItems.Some? then ToggleMenu(st, item.name) else st
    case ToggleCollapse => st.(collapsed := !st.collapsed)
  }

  /** The state after a run of actions, applied in order. */
  function Run(st: State, events: seq<Event>): State
    decreases |events|
  {
    if |events| == 0 then st else Run(Step(st, events[0]), events[1..])
  }

  /** The sub-menu of `item` is rendered. */
  predicate SubMenuShown(st: State, item: MenuItem) {
    !st.collapsed && item.subItems.Some? && st.expanded == Some(item.name)
  }

  /** The open name, if any, is that of an entry that has sub-items. */
  predicate Consistent(st: State, items: seq<MenuItem>) {
    st.expanded.None? ||
    exists i :: 0 <= i < |items| && items[i].name == st.expanded.value && items[i].subItems.Some?
  }

  /** The open name names the only entry whose sub-menu is shown, and
      only when the sidebar is not collapsed. */
  lemma AtMostOneSubMenu(st: State, items: seq<MenuItem>)
    requires DistinctNames(items)
    ensures forall i, j ::
              (0 <= i < |items| && 0 <= j < |items| && SubMenuShown(st, items[i]) && SubMenuShown(st, items[j]))
              ==> i == j
    ensures st.collapsed ==> forall i :: 0 <= i < |items| ==> !SubMenuShown(st, items[i])
  {
  }

  /** Clicking a closed entry with sub-items on an expanded sidebar shows its
      sub-menu and no other. */
  lemma ClickOpensOnlyThat(st: State, items: seq<MenuItem>, k: nat)
    requires DistinctNames(items)
    requires k < |items| && items[k].subItems.Some?
    requires !st.collapsed && st.expanded != Some(items[k].name)
    ensures SubMenuShown(Step(st, Click(items[k])), items[k])
    ensures forall i :: 0 <= i < |items| && i != k ==> !SubMenuShown(Step(st, Click(items[k])), items[i])
  {
    AtMostOneSubMenu(Step(st, Click(items[k])), items);
  }

  /** Collapsing and expanding the sidebar again brings back the sub-menu
      that was open. */
  lemma CollapseRestores(st: State)
    ensures Run(st, [ToggleCollapse, ToggleCollapse]) == st
  {
    assert [ToggleCollapse, ToggleCollapse][1..] == [ToggleCollapse];
  }

  /** Actions on the entries of a menu keep the open name one of its
      entries with sub-items. */
  lemma {:induction false} RunKeepsConsistent(st: State, events: seq<Event>, items: seq<MenuItem>)
    requires Consistent(st, items)
    requires forall n :: 0 <= n < |events| && events[n].Click? ==> events[n].item in items
    ensures Consistent(Run(st, events), items)
    decreases |events|
  {
    if |events| > 0 {
      var next := Step(st, events[0]);
      if events[0].Click? && events[0].item.subItems.Some? && next.expanded == Some(events[0].item.name) {
        var k :| 0 <= k < |items| && items[k] == events[0].item;
        assert items[k].name == next.expanded.value;
      }
      assert Consistent(next, items);
      RunKeepsConsistent(next, events[1..], items);
    }
  }

  /** From the initial state, actions on a menu without repeated names
      leave at most one sub-menu open, belonging to an entry with sub-items. */
  lemma RunShowsAtMostOne(events: seq<Event>, items: seq<MenuItem>)
    requires DistinctNames(items)
    requires forall n :: 0 <= n < |events| && events[n].Click? ==> events[n].item in items
    ensures Consistent(Run(Initial, events), items)
    ensures forall i, j ::
              (0 <= i < |items| && 0 <= j < |items| &&
               SubMenuShown(Run(Initial, events), items[i]) &&
               SubMenuShown(Run(Initial, events), items[j]))
              ==> i == j
  {
    RunKeepsConsistent(Initial, events, items);
    AtMostOneSubMenu(Run(Initial, events), items);
  }

  /** Whatever the user does with the sidebar's menu, at most one sub-menu
      is open, and it belongs to an entry that has sub-items. */
  lemma MenuShowsAtMostOne(events: seq<Event>)
    requires forall n :: 0 <= n < |events| && events[n].Click? ==> events[n].item in Entries(Menu)
    ensures Consistent(Run(Initial, events), Entries(Menu))
    ensures forall i, j ::
              (0 <= i < |Entries(Menu)| && 0 <= j < |Entries(Menu)| &&
               SubMenuShown(Run(Initial, events), Entries(Menu)[i]) &&
               SubMenuShown(Run(Initial, events), Entries(Menu)[j]))
              ==> i == j
  {
    MenuNamesDistinct();
    RunShowsAtMostOne(events, Entries(Menu));
  }
}
