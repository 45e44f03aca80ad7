/**
 * The hosted relational store, held in memory: the three tables as sequences
 * of rows. Each write is the schema's effect on the table state; a write that
 * breaks a constraint is rejected and changes nothing.
 */
module Database {
  import opened Wrappers
  import opened Schema

  class Store {
    var organizations: seq<Organization>
    var categories: seq<Category>
    var menuItems: seq<MenuItem>

    function State(): Tables
      reads this
    {
      Tables(organizations, categories, menuItems)
    }

    ghost predicate Valid()
      reads this
    {
      Schema.Valid(State())
    }

    constructor ()
      ensures State() == Tables([], [], [])
      ensures Valid()
    {
      organizations, categories, menuItems := [], [], [];
    }

    /** `.from("organizations").insert(o).select().single()`. */
    method InsertOrganization(o: Organization) returns (r: Result<Organization, DbError>)
      modifies this
      ensures var res := Schema.InsertOrganization(old(State()), o);
        && (res.Success? ==> r == Success(o) && State() == res.value)
        && (res.Failure? ==> r == Failure(res.error) && State() == old(State()))
    {
      var res := Schema.InsertOrganization(State(), o);
      if res.Success? {
        organizations := organizations + [o];
        r := Success(o);
      } else {
        r := Failure(res.error);
      }
    }

    /** `.from("categories").insert(c)`. */
    method InsertCategory(c: Category) returns (r: Result<Category, DbError>)
      modifies this
      ensures var res := Schema.InsertCategory(old(State()), c);
        && (res.Success? ==> r == Success(c) && State() == res.value)
        && (res.Failure? ==> r == Failure(res.error) && State() == old(State()))
    {
      var res := Schema.InsertCategory(State(), c);
      if res.Success? {
        categories := categories + [c];
        r := Success(c);
      } else {
        r := Failure(res.error);
      }
    }

    /** `.from("menu_items").insert(i)`. */
    method InsertMenuItem(i: MenuItem) returns (r: Result<MenuItem, DbError>)
      modifies this
      ensures var res := Schema.InsertMenuItem(old(State()), i);
        && (res.Success? ==> r == Success(i) && State() == res.value)
        && (res.Failure? ==> r == Failure(res.error) && State() == old(State()))
    {
      var res := Schema.InsertMenuItem(State(), i);
      if res.Success? {
        menuItems := menuItems + [i];
        r := Success(i);
      } else {
        r := Failure(res.error);
      }
    }

    /** `.from("organizations").update(p).eq("id", id)`. */
    method UpdateOrganization(id: string, p: OrgPatch)
      modifies this
      ensures State() == Schema.UpdateOrganization(old(State()), id, p)
    {
      organizations := Schema.UpdateOrganization(State(), id, p).organizations;
    }

    /** `.from("menu_items").update(p).eq("id", id)`. */
    method UpdateMenuItem(id: string, p: ItemPatch) returns (r: Result<(), DbError>)
      modifies this
      ensures var res := Schema.UpdateMenuItem(old(State()), id, p);
        && (res.Success? ==> r == Success(()) && State() == res.value)
        && (res.Failure? ==> r == Failure(res.error) && State() == old(State()))
    {
      var res := Schema.UpdateMenuItem(State(), id, p);
      if res.Success? {
        menuItems := res.value.menuItems;
        r := Success(());
      } else {
        r := Failure(res.error);
      }
    }

    /** `.from("categories").delete().eq("id", id)`, with ON DELETE SET NULL on menu_items. */
    method DeleteCategory(id: string)
      modifies this
      ensures State() == Schema.DeleteCategory(old(State()), id)
    {
      var t := Schema.DeleteCategory(State(), id);
      categories, menuItems := t.categories, t.menuItems;
    }

    /** `.from("menu_items").delete().eq("id", id)`. */
    method DeleteMenuItem(id: string)
      modifies this
      ensures State() == Schema.DeleteMenuItem(old(State()), id)
    {
      menuItems := Schema.DeleteMenuItem(State(), id).menuItems;
    }

    /** DELETE FROM organizations, with its ON DELETE CASCADE rules; no action issues it. */
    method DeleteOrganization(id: string)
      modifies this
      ensures State() == Schema.DeleteOrganization(old(State()), id)
    {
      var t := Schema.DeleteOrganization(State(), id);
      organizations, categories, menuItems := t.organizations, t.categories, t.menuItems;
    }
  }
}
