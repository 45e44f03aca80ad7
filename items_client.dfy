/**
 * The logic of the admin items page: grouping the item list under the
 * category list, the inline edit form's state (which item is being edited
 * and the four text fields) and the size check on an uploaded image.
 */
module ItemsClient {
  import opened Wrappers
  import opened Query
  import opened Tenant
  import CompressImage

  /** An item as the page holds it; `price` is the text the store returns. */
  datatype ClientItem = ClientItem(id: string, name: string, price: string, imagePath: Option<string>, categoryId: Option<string>)

  datatype ClientCategory = ClientCategory(id: string, name: string)

  /** One entry of `itemsByCategory`: the category and its items. */
  datatype Group = Group(category: ClientCategory, items: seq<ClientItem>)

  function InCategory(c: ClientCategory): ClientItem -> bool
  {
    (i: ClientItem) => i.categoryId == Some(c.id)
  }

  /** `categories.map(cat => ({ ...cat, items: items.filter(item => item.category_id === cat.id) }))`. */
  function ItemsByCategory(categories: seq<ClientCategory>, items: seq<ClientItem>): (r: seq<Group>)
    ensures |r| == |categories|
    ensures forall k :: 0 <= k < |r| ==> r[k].category == categories[k]
    ensures forall k :: 0 <= k < |r| ==> r[k].items == Filter(items, InCategory(categories[k]))
  {
    Map(categories, (c: ClientCategory) => Group(c, Filter(items, InCategory(c))))
  }

  /** `items.filter(item => !item.category_id)`: null, undefined or "". */
  function UncategorizedItems(items: seq<ClientItem>): (r: seq<ClientItem>)
    ensures forall i :: i in r <==> i in items && !Truthy(i.categoryId)
  {
    Filter(items, (i: ClientItem) => !Truthy(i.categoryId))
  }

  /** The groups the page renders: `itemsByCategory.filter(cat => cat.items.length > 0)`. */
  function RenderedGroups(groups: seq<Group>): (r: seq<Group>)
    ensures forall g :: g in r <==> g in groups && g.items != []
  {
    Filter(groups, (g: Group) => |g.items| > 0)
  }

  function CategoryIds(categories: seq<ClientCategory>): set<string>
  {
    set c | c in categories :: c.id
  }

  /** Items whose non-empty `category_id` names none of the listed categories. */
  function Orphans(categories: seq<ClientCategory>, items: seq<ClientItem>): (r: seq<ClientItem>)
    ensures forall i :: i in r <==> i in items && Truthy(i.categoryId) && i.categoryId.value !in CategoryIds(categories)
  {
    Filter(items, (i: ClientItem) => Truthy(i.categoryId) && i.categoryId.value !in CategoryIds(categories))
  }

  /** An orphan is shown nowhere: in no group and not among the uncategorized items. */
  lemma OrphansHidden(categories: seq<ClientCategory>, items: seq<ClientItem>, x: ClientItem)
    requires x in Orphans(categories, items)
    ensures forall g :: g in ItemsByCategory(categories, items) ==> x !in g.items
    ensures x !in UncategorizedItems(items)
  {
    forall g | g in ItemsByCategory(categories, items) ensures x !in g.items {
      var k :| 0 <= k < |categories| && ItemsByCategory(categories, items)[k] == g;
      assert categories[k] in categories;
    }
  }

  /** With distinct category ids an item with a listed category is in exactly the group of that category. */
  lemma GroupOfItem(categories: seq<ClientCategory>, items: seq<ClientItem>, x: ClientItem, k: nat)
    requires forall a, b :: 0 <= a < b < |categories| ==> categories[a].id != categories[b].id
    requires x in items && k < |categories| && x.categoryId == Some(categories[k].id)
    ensures forall j :: 0 <= j < |categories| ==> (x in ItemsByCategory(categories, items)[j].items <==> j == k)
  {
  }

  function TotalItems(groups: seq<Group>): nat
  {
    if groups == [] then 0 else |groups[0].items| + TotalItems(groups[1..])
  }

  /** Filtering by two disjoint conditions splits the count of filtering by their union. */
  lemma {:induction false} FilterSplit<T(!new)>(s: seq<T>, p: T -> bool, q: T -> bool, pq: T -> bool)
    requires forall x :: pq(x) == (p(x) || q(x))
    requires forall x :: !(p(x) && q(x))
    ensures |Filter(s, pq)| == |Filter(s, p)| + |Filter(s, q)|
  {
    if s != [] {
      FilterSplit(s[1..], p, q, pq);
    }
  }

  /** Items whose category is one of the ids. */
  function Listed(ids: set<string>): ClientItem -> bool
  {
    (i: ClientItem) => i.categoryId.Some? && i.categoryId.value in ids
  }

  /** The groups hold, together, as many items as have one of the listed categories. */
  lemma {:induction false} GroupedCount(categories: seq<ClientCategory>, items: seq<ClientItem>)
    requires forall a, b :: 0 <= a < b < |categories| ==> categories[a].id != categories[b].id
    ensures TotalItems(ItemsByCategory(categories, items)) == |Filter(items, Listed(CategoryIds(categories)))|
  {
    if categories == [] {
      FilterEmpty(items, Listed(CategoryIds(categories)));
    } else {
      var c, rest := categories[0], categories[1..];
      assert ItemsByCategory(categories, items)[1..] == ItemsByCategory(rest, items);
      GroupedCount(rest, items);
      HeadAndRest(categories);
      FilterSplit(items, InCategory(c), Listed(CategoryIds(rest)), Listed(CategoryIds(categories)));
    }
  }

  /** With distinct ids the first category's id is not among the others', and together they make up all ids. */
  lemma HeadAndRest(categories: seq<ClientCategory>)
    requires categories != []
    requires forall a, b :: 0 <= a < b < |categories| ==> categories[a].id != categories[b].id
    ensures categories[0].id !in CategoryIds(categories[1..])
    ensures CategoryIds(categories) == {categories[0].id} + CategoryIds(categories[1..])
  {
    var c, rest := categories[0], categories[1..];
    forall d | d in rest ensures d.id != c.id {
      var j :| 0 <= j < |rest| && rest[j] == d;
      assert categories[j + 1] == d;
    }
    assert categories == [c] + rest;
  }

  /**
   * The page loses and repeats no item: with distinct, non-empty category
   * ids, the groups, the uncategorized items and the orphans together count
   * exactly the item list.
   */
  lemma GroupingPartition(categories: seq<ClientCategory>, items: seq<ClientItem>)
    requires forall a, b :: 0 <= a < b < |categories| ==> categories[a].id != categories[b].id
    requires forall c :: c in categories ==> c.id != ""
    ensures TotalItems(ItemsByCategory(categories, items)) + |UncategorizedItems(items)| + |Orphans(categories, items)| == |items|
  {
    var listed := Listed(CategoryIds(categories));
    var unlisted := (i: ClientItem) => !Truthy(i.categoryId) || i.categoryId.value !in CategoryIds(categories);
    var any := (i: ClientItem) => true;
    GroupedCount(categories, items);
    FilterSplit(items, (i: ClientItem) => !Truthy(i.categoryId),
      (i: ClientItem) => Truthy(i.categoryId) && i.categoryId.value !in CategoryIds(categories), unlisted);
    FilterSplit(items, listed, unlisted, any);
    FilterAll(items, any);
  }

  // ---------------------------------------------------------------- the edit form

  /** The four text fields of the inline edit form. */
  datatype EditForm = EditForm(name: string, price: string, imagePath: string, categoryId: string)

  const EmptyForm: EditForm := EditForm("", "", "", "")

  /** `value || ""`. */
  function OrEmpty(v: Option<string>): (r: string)
    ensures r == "" <==> !Truthy(v)
    ensures r != "" ==> v == Some(r)
  {
    if Truthy(v) then v.value else ""
  }

  /** The form `startEditing` fills in for an item. */
  function FormOf(item: ClientItem): (f: EditForm)
    ensures f.name == item.name && f.price == item.price
    ensures f.imagePath == "" <==> !Truthy(item.imagePath)
    ensures f.imagePath != "" ==> item.imagePath == Some(f.imagePath)
    ensures f.categoryId == "" <==> !Truthy(item.categoryId)
    ensures f.categoryId != "" ==> item.categoryId == Some(f.categoryId)
  {
    EditForm(item.name, item.price, OrEmpty(item.imagePath), OrEmpty(item.categoryId))
  }

  /** The fields `saveEdit` submits to `updateMenuItem`. */
  datatype EditRequest = EditRequest(id: string, name: string, price: string, imagePath: string, categoryId: string)

  /**
   * Saving an untouched form writes the item's image and category back as
   * they were: the server's `|| null` undoes the form's `|| ""`.
   */
  lemma UntouchedEditKeepsReferences(item: ClientItem)
    ensures OrNull(Some(FormOf(item).imagePath)) == (if Truthy(item.imagePath) then item.imagePath else None)
    ensures FormId(Some(FormOf(item).categoryId)) == (if Truthy(item.categoryId) then item.categoryId else None)
  {
  }

  /** An image at most this many bytes after compression is uploaded. */
  const MaxUploadBytes: nat := 4 * 1024 * 1024

  /** The form state of the items page: the new item's uploaded image and the inline edit. */
  class ItemEditor {
    var imageUrl: string
    var editingItem: Option<ClientItem>
    var editForm: EditForm

    constructor ()
      ensures imageUrl == "" && editingItem.None? && editForm == EmptyForm
    {
      imageUrl := "";
      editingItem := None;
      editForm := EmptyForm;
    }

    /**
     * `handleFileUpload` once compression has produced `compressedSize` bytes
     * and, if the check passes, the upload has returned `url`: an image over
     * 4 MB is refused and changes nothing; otherwise the url is kept for the new item.
     * A rejected `compressImage` or `uploadImage` is caught before any state is
     * set, so the method is not called then and nothing changes.
     */
    method HandleFileUpload(compressedSize: nat, url: string) returns (accepted: bool)
      modifies this
      ensures accepted <==> compressedSize <= MaxUploadBytes
      ensures imageUrl == (if accepted then url else old(imageUrl))
      ensures editingItem == old(editingItem) && editForm == old(editForm)
    {
      if compressedSize > MaxUploadBytes {
        return false;
      }
      imageUrl := url;
      accepted := true;
    }

    /**
     * `handleSubmit`: the new item is created with the kept url as its image;
     * the url is cleared only when the awaited `createItem` resolves
     * (`serverOk`), and a thrown error leaves the state as it was.
     */
    method HandleSubmit(serverOk: bool) returns (imagePath: string)
      modifies this
      ensures imagePath == old(imageUrl)
      ensures imageUrl == if serverOk then "" else old(imageUrl)
      ensures editingItem == old(editingItem) && editForm == old(editForm)
    {
      imagePath := imageUrl;
      if serverOk {
        imageUrl := "";
      }
    }

    /** `startEditing`: edit this item, its fields copied into the form with nulls as "". */
    method StartEditing(item: ClientItem)
      modifies this
      ensures editingItem == Some(item) && editForm == FormOf(item) && imageUrl == old(imageUrl)
    {
      editingItem := Some(item);
      editForm := FormOf(item);
    }

    /** `cancelEditing`: nothing is edited and every field is "". */
    method CancelEditing()
      modifies this
      ensures editingItem.None? && editForm == EmptyForm && imageUrl == old(imageUrl)
    {
      editingItem := None;
      editForm := EmptyForm;
    }

    /** Typing into a field. */
    method SetForm(f: EditForm)
      modifies this
      ensures editingItem == old(editingItem) && editForm == f && imageUrl == old(imageUrl)
    {
      editForm := f;
    }

    /**
     * `saveEdit`: without an item being edited nothing happens; otherwise the
     * item's id and the form's four fields are submitted, and editing ends
     * only when the awaited `updateItem` resolves (`serverOk`); a thrown error
     * keeps the item in edit. The form keeps its text either way.
     */
    method SaveEdit(serverOk: bool) returns (submitted: Option<EditRequest>)
      modifies this
      ensures old(editingItem).None? ==> submitted.None? && editingItem.None? && editForm == old(editForm)
      ensures old(editingItem).Some? ==>
        && submitted == Some(EditRequest(old(editingItem).value.id, old(editForm).name, old(editForm).price,
                                         old(editForm).imagePath, old(editForm).categoryId))
        && editingItem == (if serverOk then None else old(editingItem))
        && editForm == old(editForm)
      ensures imageUrl == old(imageUrl)
    {
      if editingItem.None? {
        return None;
      }
      submitted := Some(EditRequest(editingItem.value.id, editForm.name, editForm.price, editForm.imagePath, editForm.categoryId));
      if serverOk {
        editingItem := None;
      }
    }

    /**
     * `handleEditFileUpload` once compression has produced `compressedSize`
     * bytes and, if the check passes, the upload has returned `url`: an image
     * over 4 MB is refused and changes nothing; otherwise the url becomes the
     * form's image. A rejected `compressImage` or `uploadImage` is caught
     * before any state is set, so the method is not called then and nothing
     * changes.
     */
    method HandleEditFileUpload(compressedSize: nat, url: string) returns (accepted: bool)
      modifies this
      ensures accepted <==> compressedSize <= MaxUploadBytes
      ensures editingItem == old(editingItem) && imageUrl == old(imageUrl)
      ensures editForm == if accepted then old(editForm).(imagePath := url) else old(editForm)
    {
      if compressedSize > MaxUploadBytes {
        return false;
      }
      editForm := editForm.(imagePath := url);
      accepted := true;
    }
  }
}
