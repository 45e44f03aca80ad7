# digital-menu, modelled in Dafny

This project models the core of *digital-menu*, a multi-tenant digital-menu service for restaurants.
A signed-in owner (identified by the user id of the authentication provider) manages one organization.
An organization holds categories and menu items, and each organization has a public menu reachable by its slug.
The model covers five parts:

- **Theme catalogs.** The five public-menu templates and the three admin templates, their id lookups with a default, and the CSS custom-property block of a template (`templates.dfy`, `admin_templates.dfy`).
- **Relational store.** The three tables organizations, categories and menu_items. Every write keeps the table constraints: primary keys, UNIQUE `clerk_org_id` and `slug`, and foreign keys with ON DELETE CASCADE and ON DELETE SET NULL. A write that would break a constraint is rejected and leaves the tables unchanged (`schema.dfy`). A `Store` class holds the tables and applies these writes in place (`store.dfy`).
- **Server actions.**
  - Shared parts: the authentication gate, and resolving the caller's organization by `clerk_org_id` with PostgREST `.single()` semantics (`tenant.dfy`).
  - Category and item actions (`categories.dfy`, `items.dfy`).
  - Settings actions (`settings.dfy`).
  - Public reads (`public.dfy`).

  Each write action has two parts. An *Outcome* function gives the result and the new tables from the old ones. A method on `Store` performs the same steps, and its `ensures` ties it to that function. Lemmas state what the action promises about the Outcome function.
- **Image compression.** The compression decision, the max-1200 resize arithmetic and the `.jpg` rename (`compress_image.dfy`).
- **Items admin page.** The grouping of items under categories, and the inline edit form's state as a class (`items_client.dfy`).

Some effects come from outside and are taken as parameters:

- the caller's identity: `None` means no session, and `""` is refused as falsy;
- the clock (`Date.now()`);
- freshly generated row ids;
- the set of keys already in the image bucket.

Shared helpers:

- `wrappers.dfy`: `Option`, `Result`, JavaScript truthiness and `v || null`.
- `query.dfy`: filter, stable ordering by a key, `.single()`, uniqueness.
- `text.dfy`: decimal rendering of timestamps, ASCII lower-casing, `slice(-n)`, and the text after the last dot.

## Model

| member | source | states |
|---|---|---|
| Templates.ParseTemplateId | src/lib/templates.ts:3 | a string names template `k` exactly when it is `k`'s key |
| Templates.Catalog | src/lib/templates.ts:38-159 | every catalog entry's `id` is the key it is stored under |
| Templates.ResolveTemplateId | src/lib/templates.ts:163-165 | a catalog key resolves to itself; null, undefined, "" and any other string resolve to neo-brutal |
| Templates.GetTemplate | src/lib/templates.ts:163-165 | the result is the catalog entry of the resolved id |
| Templates.GetTemplateOfCatalogEntry | src/lib/templates.ts:163-165 | looking an entry up by its own id gives it back |
| Templates.GetTemplateByKey | src/lib/templates.ts:163-165 | a template's key selects that template |
| Templates.GetTemplateIdempotent | src/lib/templates.ts:163-165 | `getTemplate(getTemplate(x).id) == getTemplate(x)` |
| Templates.TemplateList | src/lib/templates.ts:161 | five entries with distinct ids, each a catalog entry, every catalog entry listed |
| Templates.Declarations | src/lib/templates.ts:168-188 | sixteen declarations with the fixed property names in the fixed order, no property repeated |
| Templates.DeclarationsRoundTrip | src/lib/templates.ts:168-188 | reading each property back from the declarations gives the template's styles back: every value is its own field |
| Templates.LookupAt | src/lib/templates.ts:168-188 | in a list of distinct properties, each property's lookup finds its own value |
| Templates.TemplateCSS | src/lib/templates.ts:168-188 | the block opens with a newline and closes with the indentation before the backtick, around the rendered declarations (whose lines TemplateCSSLine gives) |
| Templates.RenderAppend | src/lib/templates.ts:168-188 | rendering a concatenation is the concatenation of the renderings |
| Templates.TemplateCSSLine | src/lib/templates.ts:168-188 | line `k` of the CSS block is `    <property k>: <value of field k>;` at its computed offset |
| AdminTemplates.ParseAdminTemplateId | src/lib/admin-templates.ts:4 | a string names admin template `k` exactly when it is `k`'s key |
| AdminTemplates.AdminCatalog | src/lib/admin-templates.ts:53-192 | every entry's `id` is its key |
| AdminTemplates.ResolveAdminTemplateId | src/lib/admin-templates.ts:194-199 | a truthy catalog key resolves to itself; anything else resolves to sunset |
| AdminTemplates.GetAdminTemplate | src/lib/admin-templates.ts:194-199 | the result is the catalog entry of the resolved id |
| AdminTemplates.GetAdminTemplateByKey | src/lib/admin-templates.ts:194-199 | an admin template's key selects that template |
| AdminTemplates.GetAdminTemplateFalsy | src/lib/admin-templates.ts:194-199 | null, undefined and "" give the sunset entry |
| AdminTemplates.GetAdminTemplateIdempotent | src/lib/admin-templates.ts:194-199 | `getAdminTemplate(getAdminTemplate(x).id) == getAdminTemplate(x)` |
| AdminTemplates.AdminCatalogKeys | src/lib/admin-templates.ts:53-192 | exactly three ids, each listed once at its index, each key parsing back to its own id |
| Wrappers.OrNull | src/lib/actions/items.ts:54 | `v \|\| null` is null exactly for null and "", and is `v` otherwise |
| Query.Filter | src/lib/actions/items.ts:27-31 | the rows kept are those satisfying the condition, with their multiplicities, and no more |
| Query.SortBy | src/lib/actions/items.ts:27-31 | ascending by the key and a permutation of its input |
| Query.Single | src/lib/actions/items.ts:14-18 | `.single()` gives a row exactly when exactly one row matches |
| Query.UniqueFilterAtMostOne | src/lib/db/schema.ts:5-7 | on a column with unique values, an equality filter keeps at most one row |
| Query.SingleOnUnique | src/lib/db/schema.ts:5-7 | on a unique column, `.single()` finds the matching row exactly when one exists |
| Text.DecimalString | src/lib/actions/categories.ts:54 | `String(timestamp)`: a non-empty string of digits without a leading zero |
| Text.DecimalRoundTrip | src/lib/actions/categories.ts:54 | the decimal text of a timestamp reads back as that timestamp |
| Text.StampedDistinct | src/lib/actions/categories.ts:54 | two strings with the same prefix and different timestamps before a non-digit separator differ |
| Text.ToLower | src/lib/actions/categories.ts:54 | ASCII upper-case letters become lower-case and every other character is kept |
| Text.SliceLast | src/lib/actions/categories.ts:54 | for n > 0, `slice(-n)` is the suffix of length min(n, length) |
| Text.AfterLastDot | src/lib/actions/settings.ts:32 | `split(".").pop()` is a dot-free suffix that follows a dot or is the whole string |
| Text.AfterLastDotUnique | src/lib/actions/settings.ts:32 | after a prefix ending in a dot, a dot-free suffix is exactly what `split(".").pop()` returns |
| Schema.NewCategory | src/lib/db/schema.ts:13-23 | an inserted category gets `order_index` 0 and `is_active` true |
| Schema.NewMenuItem | src/lib/db/schema.ts:25-39 | an inserted item gets `order_index` 0 and `is_active` true |
| Schema.EmptyValid | src/lib/db/schema.ts:1-39 | the empty database meets every constraint |
| Schema.InsertOrganization | src/lib/db/schema.ts:3-11 | accepted exactly when id, `clerk_org_id` and `slug` are all unused; then appended; keeps the constraints |
| Schema.InsertCategory | src/lib/db/schema.ts:13-23 | accepted exactly when the id is unused and the organization exists; keeps the constraints |
| Schema.InsertMenuItem | src/lib/db/schema.ts:25-39 | accepted exactly when the price fits `numeric(10, 2)` (under 10^8 in absolute value), the id is unused, the organization exists and the category is null or exists; keeps the constraints |
| Schema.UpdateOrganization | src/lib/db/schema.ts:3-11 | only the row with that id is patched; keeps the constraints |
| Schema.UpdateMenuItem | src/lib/db/schema.ts:25-39 | rejected exactly when the row exists and either the new price does not fit `numeric(10, 2)` or the new category does not exist; otherwise only that row's four columns change; keeps the constraints |
| Schema.DeleteCategory | src/lib/db/schema.ts:30-31 | the category goes; items that referenced it survive with `category_id` null and nothing else changed; keeps the constraints |
| Schema.DeleteMenuItem | src/lib/db/schema.ts:25-39 | exactly the rows with that id go; keeps the constraints |
| Schema.DeleteOrganization | src/lib/db/schema.ts:13-31 | the organization, its categories and its items go; surviving items lose references to the removed categories |
| Schema.DeleteOrganizationItems | src/lib/db/schema.ts:27-31 | an item survives exactly when it belongs to another organization |
| Schema.DeleteOrganizationKeys | src/lib/db/schema.ts:3-23 | the deletion keeps every key unique |
| Schema.DeleteOrganizationReferences | src/lib/db/schema.ts:13-31 | no surviving row references a deleted row |
| Schema.DeleteOrganizationValid | src/lib/db/schema.ts:13-31 | deleting an organization keeps every constraint |
| Database.Store.constructor | src/lib/db/schema.ts:1-39 | a new store is empty and valid |
| Database.Store.InsertOrganization | src/lib/db/schema.ts:3-11 | the store applies the organization insert in place |
| Database.Store.InsertCategory | src/lib/db/schema.ts:13-23 | the store applies the category insert in place |
| Database.Store.InsertMenuItem | src/lib/db/schema.ts:25-39 | the store applies the item insert in place |
| Database.Store.UpdateOrganization | src/lib/db/schema.ts:3-11 | the store applies the organization update in place |
| Database.Store.UpdateMenuItem | src/lib/db/schema.ts:25-39 | the store applies the item update in place |
| Database.Store.DeleteCategory | src/lib/db/schema.ts:30-31 | the store applies the category delete with SET NULL |
| Database.Store.DeleteMenuItem | src/lib/db/schema.ts:25-39 | the store applies the item delete |
| Database.Store.DeleteOrganization | src/lib/db/schema.ts:15-29 | the store applies the organization delete with CASCADE |
| Tenant.CheckAuth | src/lib/actions/categories.ts:9-16 | passes exactly for a truthy user id and fails with "Unauthorized" otherwise |
| Tenant.OrgByClerkId | src/lib/actions/items.ts:13-20 | a found organization is the caller's own |
| Tenant.OrgByClerkIdFinds | src/lib/actions/items.ts:13-20 | on a valid store the caller's organization is found exactly when one exists |
| Tenant.GetOrgId | src/lib/actions/items.ts:13-20 | the id of the caller's organization, or none |
| Tenant.FormId | src/lib/actions/items.ts:50 | `categoryId \|\| null` is no id exactly for a missing or empty field |
| Tenant.ActionError.Message | src/lib/actions/settings.ts:28-60 | each fixed failure throws a non-empty text ("Unauthorized", "No file provided", "Organization not found", …); an upload failure's text starts with "Upload failed: "; a rejected write throws the store's own message |
| Tenant.MessagesDistinct | src/lib/actions/categories.ts:13-66 | two different fixed failures never throw the same text |
| CategoryActions.GetCategories | src/lib/actions/categories.ts:18-38 | "Unauthorized" exactly without identity; [] without an organization; otherwise ascending by `order_index` and exactly the caller's categories |
| CategoryActions.ProvisionSlug | src/lib/actions/categories.ts:54 | `menu-<timestamp>-` followed by exactly the user id's last six characters (all of it if shorter), lower-cased, so with no upper-case ASCII letter |
| CategoryActions.LowerTail | src/lib/actions/categories.ts:54 | after any prefix, `userId.slice(-6).toLowerCase()` is the lower-cased last min(6, length) characters of the user id |
| CategoryActions.ProvisionSlugDistinct | src/lib/actions/categories.ts:54 | provisioning slugs made at different times differ |
| CategoryActions.ProvisionedOrganization | src/lib/actions/categories.ts:53-61 | the provisioned row: the caller's id, "Meu Restaurante", the generated slug, neo-brutal and sunset |
| CategoryActions.FindOrProvision | src/lib/actions/categories.ts:45-64 | an existing organization is used as is; a rejected provisioning changes nothing |
| CategoryActions.CreateCategoryOutcome | src/lib/actions/categories.ts:40-77 | fails only with "Unauthorized" or "Could not create organization", and then writes nothing; keeps the constraints |
| CategoryActions.CreateCategory | src/lib/actions/categories.ts:40-77 | the store performs `createCategory`'s steps |
| CategoryActions.CreateCategoryWithOrganization | src/lib/actions/categories.ts:45-75 | with an organization no new one is created; the category is appended under it, or a rejected insert is only logged |
| CategoryActions.ProvisionRejected | src/lib/actions/categories.ts:52-64 | a provisioned organization whose id or slug is taken yields no organization and no change |
| CategoryActions.ProvisionAccepted | src/lib/actions/categories.ts:52-64 | otherwise the provisioned organization is appended and used |
| CategoryActions.CreateCategoryProvisions | src/lib/actions/categories.ts:52-73 | without an organization exactly one is provisioned and the category goes under it; a taken id or slug fails with nothing written |
| CategoryActions.CreateCategoryProvisionsOnce | src/lib/actions/categories.ts:45-64 | after one successful call a second call creates no organization |
| CategoryActions.DeleteCategoryOutcome | src/lib/actions/categories.ts:79-83 | "Unauthorized" without identity, success otherwise; keeps the constraints |
| CategoryActions.DeleteCategory | src/lib/actions/categories.ts:79-83 | the store performs `deleteCategory`'s steps |
| CategoryActions.DeleteCategoryIgnoresOwner | src/lib/actions/categories.ts:79-83 | any signed-in caller removes exactly the category with that id; an unknown id changes nothing |
| ItemActions.CategoryName | src/lib/actions/items.ts:29 | the embedded category name names the item's category |
| ItemActions.CategoryNameFound | src/lib/actions/items.ts:29 | on a valid store every categorized item carries its category's name |
| ItemActions.GetMenuItems | src/lib/actions/items.ts:22-35 | "Unauthorized" exactly without identity; [] without an organization; otherwise ascending by `order_index`, exactly the caller's items, each with its category name |
| ItemActions.FormItem | src/lib/actions/items.ts:48-56 | empty category and image become null; description as given; active, `order_index` 0 |
| ItemActions.CreateMenuItemOutcome | src/lib/actions/items.ts:37-59 | fails only with "Unauthorized" or the missing-organization error, then writes nothing; touches only menu_items; keeps the constraints |
| ItemActions.CreateMenuItem | src/lib/actions/items.ts:37-59 | the store performs `createMenuItem`'s steps |
| ItemActions.CreateMenuItemNeedsOrganization | src/lib/actions/items.ts:39-40 | without an organization: "Org not found. Create a category first." and nothing written |
| ItemActions.CreateMenuItemStores | src/lib/actions/items.ts:48-56 | the item is appended under the caller's organization unless its price overflows the column, its id is taken or its category is unknown; success either way |
| ItemActions.DeleteMenuItemOutcome | src/lib/actions/items.ts:61-65 | "Unauthorized" without identity, success otherwise; keeps the constraints |
| ItemActions.DeleteMenuItem | src/lib/actions/items.ts:61-65 | the store performs `deleteMenuItem`'s steps |
| ItemActions.DeleteMenuItemIgnoresOwner | src/lib/actions/items.ts:61-65 | any signed-in caller removes exactly the items with that id, in any organization |
| ItemActions.FormPatch | src/lib/actions/items.ts:76-81 | empty image and category fields clear those columns; name and price as given |
| ItemActions.UpdateMenuItemOutcome | src/lib/actions/items.ts:67-84 | "Unauthorized" without identity, success otherwise; only menu_items changes; keeps the constraints |
| ItemActions.UpdateMenuItem | src/lib/actions/items.ts:67-84 | the store performs `updateMenuItem`'s steps |
| ItemActions.UpdateMenuItemIgnoresOwner | src/lib/actions/items.ts:67-81 | any signed-in caller overwrites exactly name, price, image and category of the row with that id, unless the price overflows or the category is unknown; the other columns are kept |
| SettingsActions.FileExtension | src/lib/actions/settings.ts:32 | the extension is non-empty and dot-free: "webp" when the text after the last dot is empty, otherwise that text |
| SettingsActions.FileExtensionWithoutDot | src/lib/actions/settings.ts:32 | a name without a dot is its own extension |
| SettingsActions.UploadPath | src/lib/actions/settings.ts:33 | the key lies in the caller's folder |
| SettingsActions.UploadPathExtension | src/lib/actions/settings.ts:31-33 | the stored key's extension is the file's extension |
| SettingsActions.UploadPathDistinct | src/lib/actions/settings.ts:31-33 | one user's uploads at different times get different keys |
| SettingsActions.UploadImageOutcome | src/lib/actions/settings.ts:24-54 | "Unauthorized", then "No file provided"; otherwise the key `${userId}/${timestamp}.${ext}` is stored and returned exactly when it is not already in the bucket, and a taken key fails with nothing stored |
| SettingsActions.UploadAgainLater | src/lib/actions/settings.ts:30-43 | after one upload succeeds, the same user's upload at another time fails only if its key was in the bucket before both |
| SettingsActions.CallerOrg | src/lib/actions/settings.ts:57-60 | "Unauthorized" without identity; "Organization not found" exactly when the caller has no organization |
| SettingsActions.PatchCallerOrg | src/lib/actions/settings.ts:69-74 | fails exactly when the caller's organization cannot be resolved, writing nothing; otherwise patches that row |
| SettingsActions.PatchOwnRow | src/lib/actions/settings.ts:69-74 | a caller with an organization gets its row patched and no other row or table touched |
| SettingsActions.UpdateOrganizationThemeOutcome | src/lib/actions/settings.ts:56-81 | fails exactly when the caller's organization cannot be resolved, with that error and no write; never touches categories or menu_items; keeps the constraints |
| SettingsActions.UpdateAdminThemeOutcome | src/lib/actions/settings.ts:83-97 | fails exactly when the caller's organization cannot be resolved, with that error and no write; never touches categories or menu_items; keeps the constraints |
| SettingsActions.UpdateOrganizationInfoOutcome | src/lib/actions/settings.ts:99-127 | fails exactly when the caller's organization cannot be resolved, with that error and no write; never touches categories or menu_items; keeps the constraints |
| SettingsActions.UpdateOrganizationThemeEffect | src/lib/actions/settings.ts:56-81 | only the caller's `theme_preset` changes, and it then selects the chosen template |
| SettingsActions.UpdateWithoutOrganization | src/lib/actions/settings.ts:58-60 | a caller without an organization gets "Organization not found" and nothing is written, for all three updates |
| SettingsActions.UpdateAdminThemeEffect | src/lib/actions/settings.ts:83-97 | only the caller's `admin_theme` changes, and it then selects the chosen admin template; categories and menu_items are unchanged |
| SettingsActions.UpdateOrganizationInfoEffect | src/lib/actions/settings.ts:99-127 | supplied name, logo and favicon replace their columns; absent keys and every other column are kept |
| SettingsActions.UpdateOrganizationTheme | src/lib/actions/settings.ts:56-81 | the store performs `updateOrganizationTheme`'s steps |
| SettingsActions.UpdateAdminTheme | src/lib/actions/settings.ts:83-97 | the store performs `updateAdminTheme`'s steps |
| SettingsActions.UpdateOrganizationInfo | src/lib/actions/settings.ts:99-127 | the store performs `updateOrganizationInfo`'s steps |
| SettingsActions.PatchCaller | src/lib/actions/settings.ts:57-74 | the store resolves the caller's organization and updates its row |
| SettingsActions.GetOrganizationSettings | src/lib/actions/settings.ts:129-139 | "Unauthorized" exactly without identity; the caller's row, which on a valid store is null exactly when there is none |
| SettingsActions.DefaultOrganization | src/lib/actions/settings.ts:148-160 | the default row: the caller's id, "Meu Restaurante", the slug `restaurante-<timestamp>`, neo-brutal and sunset |
| SettingsActions.DefaultSlugDistinct | src/lib/actions/settings.ts:148-150 | default organizations created at different times get different slugs |
| SettingsActions.CreateDefaultOrganizationOutcome | src/lib/actions/settings.ts:141-170 | success returns the caller's organization, present in the tables; failure writes nothing; keeps the constraints |
| SettingsActions.CreateDefaultOrganization | src/lib/actions/settings.ts:141-170 | the store performs `createDefaultOrganization`'s steps |
| SettingsActions.CreateDefaultOrganizationIdempotent | src/lib/actions/settings.ts:144-146 | after one success, another call returns the same organization and changes nothing |
| SettingsActions.CreateDefaultOrganizationInserts | src/lib/actions/settings.ts:148-167 | without an organization the default row is appended; a taken id or slug is raised with nothing written |
| PublicMenu.OrgBySlug | src/lib/actions/public.ts:9-13 | a found organization has that slug |
| PublicMenu.OrgBySlugFinds | src/lib/actions/public.ts:9-15 | on a valid store the slug lookup finds the organization exactly when one has that slug |
| PublicMenu.GetPublicMenu | src/lib/actions/public.ts:7-38 | null exactly when the slug names no organization; otherwise exactly its active categories and active items, each ascending by `order_index` |
| PublicMenu.PublicMenuOfOrganization | src/lib/actions/public.ts:17-31 | every organization's menu is published under its slug, with exactly its active rows |
| PublicMenu.GetOrganizationByUserId | src/lib/actions/public.ts:40-48 | a returned slug belongs to the user's organization |
| PublicMenu.OrganizationSlugOpensOwnMenu | src/lib/actions/public.ts:40-48 | no slug exactly when the user has no organization; the returned slug opens that user's own menu |
| CompressImage.RoundDiv | src/lib/compress-image.ts:27 | `Math.round(a / b)`: the nearest whole number, halves up |
| CompressImage.RoundDivUnique | src/lib/compress-image.ts:27 | the nearest whole number is the only one in that bracket |
| CompressImage.RoundDivAtMost | src/lib/compress-image.ts:27 | scaling the shorter side never exceeds the limit |
| CompressImage.ResizeDimensions | src/lib/compress-image.ts:22-33 | an image that fits is unchanged; otherwise the longer side (height on a tie) becomes 1200; a zero-pixel side needs no special case |
| CompressImage.ResizeBounds | src/lib/compress-image.ts:22-33 | for every size, zero-pixel sides included, both sides at most 1200; unchanged when both fit; otherwise the longer side (height on a tie) is exactly 1200 |
| CompressImage.ResizeKeepsAspect | src/lib/compress-image.ts:26-32 | for every image that is resized, zero-pixel sides included, the computed side is within half a pixel of the exact proportion |
| CompressImage.ResizeCanCollapse | src/lib/compress-image.ts:27 | a 5000 x 1 image becomes 1200 x 0 |
| CompressImage.JpegName | src/lib/compress-image.ts:52 | everything up to and including the last dot is kept, and a name with a non-empty final extension ends in "jpg" |
| CompressImage.JpegNameReplaced | src/lib/compress-image.ts:52 | a name with a non-empty final extension keeps everything up to its last dot, then "jpg", which is then its extension |
| CompressImage.JpegNameKept | src/lib/compress-image.ts:52 | a name with no dot, or ending in a dot, is kept as it is |
| CompressImage.JpegNameIdempotent | src/lib/compress-image.ts:52 | renaming twice is renaming once |
| CompressImage.CompressPlan | src/lib/compress-image.ts:10-54 | files under 500 KiB are returned as they are; a larger one whose resized canvas has a zero-pixel side is rejected with "Failed to compress image"; every other becomes `image/jpeg` with the renamed name and exactly the resized sides |
| CompressImage.CollapsedImageRejected | src/lib/compress-image.ts:26-45 | a 600 KiB 5000 x 1 image is rejected, its height rounding to 0 |
| ItemsClient.ItemsByCategory | src/app/admin/items/items-client.tsx:138-141 | one group per category, in category order |
| ItemsClient.UncategorizedItems | src/app/admin/items/items-client.tsx:144 | exactly the items whose `category_id` is null, undefined or "" |
| ItemsClient.RenderedGroups | src/app/admin/items/items-client.tsx:287 | exactly the groups with at least one item |
| ItemsClient.Orphans | src/app/admin/items/items-client.tsx:138-144 | exactly the items whose truthy `category_id` names no listed category |
| ItemsClient.OrphansHidden | src/app/admin/items/items-client.tsx:138-144 | an item whose category is not listed appears in no group and not among the uncategorized |
| ItemsClient.GroupOfItem | src/app/admin/items/items-client.tsx:138-141 | with distinct ids an item is in exactly the group of its category |
| ItemsClient.GroupedCount | src/app/admin/items/items-client.tsx:138-141 | the groups hold as many items as have a listed category |
| ItemsClient.GroupingPartition | src/app/admin/items/items-client.tsx:138-144 | groups, uncategorized items and orphans together count the item list exactly |
| ItemsClient.OrEmpty | src/app/admin/items/items-client.tsx:113-114 | `v \|\| ""` is "" exactly for null and "", and is `v` otherwise |
| ItemsClient.UntouchedEditKeepsReferences | src/app/admin/items/items-client.tsx:108-135 | saving an untouched form writes the image and category back as they were ("" read as null) |
| ItemsClient.FormOf | src/app/admin/items/items-client.tsx:110-115 | name and price are copied; image and category are "" exactly when null or "", and otherwise the item's own value |
| ItemsClient.ItemEditor.constructor | src/app/admin/items/items-client.tsx:45-47 | nothing is edited, the form and the kept url are empty |
| ItemsClient.ItemEditor.HandleFileUpload | src/app/admin/items/items-client.tsx:50-72 | an image over 4 MiB after compression is refused before upload; otherwise its url is kept |
| ItemsClient.ItemEditor.HandleSubmit | src/app/admin/items/items-client.tsx:102-106 | the kept url is submitted as the image; it is cleared only when `createItem` resolves, and a thrown error changes nothing |
| ItemsClient.ItemEditor.StartEditing | src/app/admin/items/items-client.tsx:108-116 | the item is edited, with its fields copied and null as "" |
| ItemsClient.ItemEditor.SetForm | src/app/admin/items/items-client.tsx:437-496 | typing into a field replaces only the form; the edited item and the kept url are unchanged |
| ItemsClient.ItemEditor.CancelEditing | src/app/admin/items/items-client.tsx:118-121 | nothing is edited and all four fields are "" |
| ItemsClient.ItemEditor.SaveEdit | src/app/admin/items/items-client.tsx:123-135 | nothing is submitted without an edited item; otherwise exactly its id and the four fields, and editing ends only when `updateItem` resolves |
| ItemsClient.ItemEditor.HandleEditFileUpload | src/app/admin/items/items-client.tsx:74-96 | an image over 4 MiB after compression is refused before upload; otherwise its url becomes the form's image |

## Left out

- Network clients: the database client's queries, the storage upload and `getPublicUrl`, and the authentication provider's `auth()`. They are replaced by the in-memory `Store`, a set of bucket keys and an `Option<string>` identity. The upload's result is the stored key, not the public URL built from it.
- `revalidatePath`, `console.log` and `console.error`: cache and log output with no state in the model.
- `Date.now()` and generated uuids: parameters of the actions.
- Row-id format: ids are any non-empty strings, so a malformed uuid behaves like an unknown one (a failed foreign key) rather than a type error.
- `parseFloat` of the price: prices are already-parsed whole numbers of cents. As in the source, nothing checks them, so negative values pass. NaN and fractions of a cent are not represented.
- Float rounding: `Math.round` is modelled on exact rationals. A float quotient that lands just beside a half could round the other way.
- Canvas, `Image`, `FileReader` and `toBlob` in the compression: only the size, dimension and name arithmetic, and the empty-canvas rejection, are modelled. The output file's byte size is a parameter of the upload handlers.
- `src/components/ui/image-upload.tsx` is not part of this model.
- Prototype keys: for a key such as "toString", the source's `templates[id]` and `id in adminTemplates` reach `Object.prototype` members. The model's catalogs are closed, so such keys give the default.
- Schema and code disagree: `admin_theme` and `favicon_url` are written by the settings actions but are not declared in `src/lib/db/schema.ts`. They are columns of the organization row here.
- Concurrency: actions run one at a time. The check-then-insert race in provisioning is not modelled; a concurrent duplicate would meet the UNIQUE constraint.
- Tie order: rows with equal `order_index` come back in the order the model's insertion sort leaves them. Only ascending order and the multiset of rows are stated.
- Column projections (`select("id, name, ...")`) and `created_at`: whole rows are returned, and the timestamp column is not modelled.
- Query errors: the `if (error) throw` branches of the reads and of the organization updates cannot arise in the model, because a filter, or an update of a non-key column, cannot violate a constraint.
- Error texts from the store and from the storage are not modelled: `StoreError` carries the violated column, and `UploadFailed` has only the "Upload failed: " prefix.
- `toLowerCase` is ASCII-only; other letters are kept.
- ItemActions.FormItem, ItemActions.FormPatch, CategoryActions.CreateCategoryOutcome: `name` is modelled as always present. A form without a name would make the NOT NULL column reject the write, which the source only logs; in `createCategory` an organization provisioned before that failed insert stays. That case is not represented.
- Schema.UpdateMenuItem: the price overflow is raised only when the update hits a row; whether PostgREST's payload conversion raises it for an update that hits no row is not modelled.
- Canvas, `Image` and `FileReader` failures in `compressImage` ("Failed to load image", "Failed to read file", a thrown draw) are not modelled; only the empty-canvas rejection of `toBlob` is.
- Presentation: the React views and layouts, UI primitives, the QR-code wrapper, the Open Graph image, `page.tsx`/`layout.tsx` server components and `next.config.ts`.
