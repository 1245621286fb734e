# Foodgram recipe core, modelled in Dafny

Foodgram is a recipe-sharing web service: users publish recipes, each with
tags and ingredient line items, favourite recipes, follow authors and
download a shopping list for the recipes in their cart. This project models
the logic at the centre of its backend. It covers:

- how a recipe submission is validated and normalised: duplicate ingredient
  ids are merged, amounts are checked, ids are resolved against the
  ingredient table, and tag ids are checked;
- how line items are built from the validated dict;
- how a recipe row is created and updated;
- the ingredient search (keyboard-layout repair, prefix matches first) and
  the recipe list filters;
- the shopping-list report;
- the permission predicates;
- the tag slug validator;
- the record constraints and text forms of the stored models.

The database is not modelled. Every table the code queries is passed in:

- the ingredient table is a map from primary key to row;
- the tag table is a set of primary keys, or a map to rows where slugs are needed;
- carts, favourites, subscriptions and line items are sequences of rows.

Each Python loop becomes a Dafny `while` loop with invariants:

- `IngredientsValidator` (the loop over the submissions that builds the
  dict, and the loop over the dict that pairs the known ids) and
  `DownloadShoppingCart` are proved equal to a specification function;
- the search's `extend` loop is `ExtendMissing`, on which
  `SearchIngredients` builds; that method is proved equal to `SearchResult`;
- `RecipeIngredientsSet` is specified by the predicate `BuiltFrom`: one
  line item per key of the dict, with that entry's ingredient and amount;
- `RecipeRecord.SetAttributes` is the `setattr` loop of the serializer's
  `update`.

Code without a loop keeps its own shape. `RecipeQueryset` reassigns the
query set filter by filter and is proved equal to `Listing`. A filter across
a relation (tag slugs, cart rows, favourite rows) is a join: it yields a
recipe once for each matching row. `.distinct()`, which the view calls only
when tags are given, drops the repeats. No unique constraint covers the cart
or favourite tables. So without tags, a recipe with two cart rows of the
user's is listed twice under a true cart flag (`DuplicateCartRowListedTwice`). `Validate` runs its checks in order and returns the updated
dict. The properties the code promises are proved as lemmas about these
functions.

Modules, one per file:

| module | file | role |
|---|---|---|
| `Common` | `common.dfy` | `Option`, `Result`, `Outcome` and the error kinds |
| `Seqs` | `seqs.dfy` | `Distinct`, `Elements`, `Filter`, `Expand` (the rows of a join), `Dedup` (SELECT DISTINCT) and `Join`, with their lemmas |
| `Decimal` | `decimal.dfy` | digit strings and decimal rendering of integers |
| `Models` | `models.dfy` | records, field and unique constraints, `__str__` forms |
| `TagSlugs` | `tag_slugs.dfy` | recipes/validators.py |
| `ApiValidators` | `api_validators.dfy` | api/validators.py |
| `Services` | `services.dfy` | api/services.py |
| `Permissions` | `permissions.dfy` | api/permissions.py |
| `IngredientSearch` | `ingredient_search.dfy` | `IngredientViewSet.get_queryset` |
| `RecipeFilters` | `recipe_filters.dfy` | `RecipeViewSet.get_queryset` |
| `ShoppingList` | `shopping_list.dfy` | `RecipeViewSet.download_shopping_cart` |
| `Serializers` | `serializers.dfy` | `RecipeSerializer.validate/create/update`, `get_is_subscribed` |

### The ingredient dict

The validator's dict is a `map<int, Entry>`. An entry is either
`Bare(total)`, the plain integer running total, or
`Paired(ingredient, total)`, the tuple written for an id the ingredient table
knows.

An id the table does not know stays in the validator's dict as `Bare`, its
plain summed amount (validators.py:35-42; see `ValidateResult` and
`UnknownIdKeptBare`).

Such an entry then breaks the line-item builder. There, tuple unpacking of a
plain integer raises a `TypeError`. The model returns
`Err(UnpackError)` (`RecipeIngredientsSet`, `UnresolvedIdBreaksBuilder`),
and the surrounding transaction stores nothing.

## Model

| member | source | states |
|---|---|---|
| `Models.TagsUniqueIdentify` | backend/recipes/models.py:19-33 | Tag name, colour and slug are each unique, so two tags sharing any of them are the same row. |
| `Models.LineItemsUniqueIffKeyCount` | backend/recipes/models.py:173-178 | Line items meet the (recipe, ingredient) unique constraint exactly when there are as many distinct keys as rows. |
| `Models.SubscriptionsUniqueIffAtMostOnce` | backend/recipes/models.py:207-212 | The constraint holds exactly when each (user id, author id) key occurs at most once. Equivalently, no two rows join the same follower to the same author, users being compared by primary key. |
| `Models.IngredientTextRoundTrip` | backend/recipes/models.py:67-68 | An ingredient renders as "name, unit.", and both parts can be read back from it when the name has no comma. |
| `Models.RecipeTextRoundTrip` | backend/recipes/models.py:131-132 | A recipe renders as "author, name", and both parts can be read back from it when the author's text has no comma. |
| `Models.TagTextIdentifies` | backend/recipes/models.py:40-41 | A tag renders as its name. Names are unique, so two tags with the same text are the same row. |
| `Models.SubscribeTextRoundTrip` | backend/recipes/models.py:214-215 | A subscription renders as "Пользователь user, автор author". Both users' texts can be read back from it when the follower's text has no comma. |
| `Models.FavoriteRecipeTextRoundTrip` | backend/recipes/models.py:244-245 | A favourite renders as 'user добавил рецепт "recipe" в избранное.'. User and recipe texts can be read back from it when the user's text has no space. |
| `Models.ShoppingCartTextRoundTrip` | backend/recipes/models.py:276-277 | A cart row renders as '"recipe" в корзине покупок user.'. Recipe and user texts can be read back from it when the recipe's text has no double quote. |
| `TagSlugs.TagSlugValidator` | backend/recipes/validators.py:11-17 | Passes exactly when the regex validator passes. Every failure is a ValidationError with the tag validator's own message. |
| `TagSlugs.SlugPatternMatchesIff` | backend/recipes/validators.py:5-8 | `^[-a-zA-Z0-9_]+$` matches exactly a non-empty run of slug characters, optionally followed by one final newline. |
| `TagSlugs.EmptySlugRejected` | backend/recipes/validators.py:6 | The empty string is rejected. |
| `TagSlugs.TrailingNewlineAccepted` | backend/recipes/validators.py:6 | A valid slug followed by one newline is accepted, because `$` matches before it. |
| `TagSlugs.ForeignCharRejected` | backend/recipes/validators.py:6 | Any other character, except a single final newline, makes the slug rejected. |
| `TagSlugs.SlugExamples` | backend/recipes/validators.py:5-8 | "tea_2-go" passes. A space, '#' and Cyrillic letters fail. |
| `ApiValidators.IngredientsValidator` | backend/api/validators.py:18-42 | The loop that builds the dict from the submissions and the loop that pairs its known ids compute exactly `ValidateIngredients`: accumulate, refuse empty or unresolvable batches, then pair the resolved ids. |
| `ApiValidators.AccumulateSucceedsIff` | backend/api/validators.py:22-30 | The first loop succeeds exactly when every amount is well formed and every running total stays positive. |
| `ApiValidators.AccumulateFailsAt` | backend/api/validators.py:22-28 | The loop stops at the first bad submission, with the malformed-amount or the non-positive-total message as appropriate. |
| `ApiValidators.AccumulateSums` | backend/api/validators.py:26-30 | After the loop each submitted id has one entry, and its value is the sum of all amounts submitted for it. |
| `ApiValidators.AccumulateErrors` | backend/api/validators.py:23-28 | Every failure of the first loop carries one of its two messages. |
| `ApiValidators.SumForPositive` | backend/api/validators.py:26-28 | When every running total stays positive, each id's final sum is positive. |
| `ApiValidators.ValidateSucceedsIff` | backend/api/validators.py:18-42 | The validator succeeds exactly when the running totals stay positive, the batch is non-empty, and some submitted id is in the ingredient table. |
| `ApiValidators.ValidateErrors` | backend/api/validators.py:18-42 | Every failure is a ValidationError with one of the three messages. |
| `ApiValidators.EmptySubmissionRefused` | backend/api/validators.py:32-33 | An empty submission list is refused with "Неправильные ингидиенты". |
| `ApiValidators.ValidateResult` | backend/api/validators.py:22-42 | On success the keys are exactly the submitted ids. Each amount is the positive sum of that id's submissions. A known id is paired with its ingredient; an unknown id stays a bare sum. |
| `ApiValidators.UnknownIdKeptBare` | backend/api/validators.py:35-42 | Example: an id absent from the table is kept as a bare amount next to a resolved one. |
| `ApiValidators.NegativeAmountMerged` | backend/api/validators.py:26-30 | Example: amounts 5 and -3 for one id merge to 2. |
| `ApiValidators.SignedTextRefused` | backend/api/validators.py:23-24 | Example: the strings "-3" and "2a" are refused with the malformed-amount message. |
| `ApiValidators.TagsExistIff` | backend/api/validators.py:10-15 | The tag check passes exactly when the submitted ids are pairwise distinct and all exist, so a repeated id fails even if it exists. |
| `Services.RecipeIngredientsSet` | backend/api/services.py:9-27 | Succeeds exactly when every entry is paired. It then builds one line item per dict key, carrying the recipe and that entry's ingredient and amount. Otherwise it fails with the unpacking error. |
| `Services.ValidatedItemsUnique` | backend/api/services.py:18-27 | Line items built from a successful validation meet the (recipe, ingredient) unique constraint, and every amount is at least 1. |
| `Services.UnresolvedIdBreaksBuilder` | backend/api/services.py:20 | An id missing from the table passes validation as a bare entry, which the builder cannot unpack. |
| `Services.KeyStringLengths` | backend/api/services.py:30-33 | Both key strings are 33 characters long. |
| `Services.KeyStringsDistinct` | backend/api/services.py:30-33 | The Latin keys are pairwise distinct, and so are the Cyrillic keys. |
| `Services.TranslateKey` | backend/api/services.py:31-32 | The i-th Latin key translates to the i-th Cyrillic letter. |
| `Services.TranslateKeysInjective` | backend/api/services.py:30-33 | Distinct Latin keys translate to distinct letters. |
| `Services.TranslateShape` | backend/api/services.py:30-33 | Translation keeps the length. It leaves characters outside the table alone and sends every key into the Cyrillic row. |
| `Services.TranslateFirstKey` | backend/api/services.py:31-32 | 'q' translates to 'й'. |
| `Services.TranslateLastKey` | backend/api/services.py:31-32 | '/' translates to '.'. |
| `Services.TranslateDotKey` | backend/api/services.py:31-32 | '.' translates to 'ю'. |
| `Permissions.SafeMethodsAlwaysGranted` | backend/api/permissions.py:12-66 | GET, HEAD and OPTIONS are granted by all four checks, whoever asks. |
| `Permissions.UnsafeNeedsActiveUser` | backend/api/permissions.py:12-17 | Any other method is granted exactly to an authenticated, active user. |
| `Permissions.AuthorStaffUnsafeIff` | backend/api/permissions.py:26-35 | An unsafe method on an object needs an active user who is its author or staff. |
| `Permissions.AdminUnsafeIff` | backend/api/permissions.py:44-50 | An unsafe method needs an active staff user. |
| `Permissions.ObjectGrantImpliesViewGrant` | backend/api/permissions.py:12-35 | An object-level author/staff grant implies the view-level grant. The admin check is stricter than the author/staff check, which is stricter than the owner check. |
| `Permissions.OwnerGrantsInactiveStaff` | backend/api/permissions.py:59-66 | Because `and` binds tighter than `or`, the owner check grants more than the author/staff check exactly for unsafe requests by inactive staff. |
| `Permissions.InactiveStaffDelete` | backend/api/permissions.py:59-66 | Example: an inactive staff user deleting someone else's object. |
| `IngredientSearch.SearchIngredients` | backend/api/views.py:87-105 | The search returns `SearchResult`: the catalogue when there is no query; otherwise the prefix matches followed by the entries that only contain the query. |
| `IngredientSearch.ExtendMissing` | backend/api/views.py:100-102 | Extending with the entries not already found appends exactly those entries, in order. |
| `IngredientSearch.InnerOnlyByExclusion` | backend/api/views.py:97-102 | Removing the prefix matches from the containing matches leaves those that contain the query without starting with it. |
| `IngredientSearch.LowerIdempotent` | backend/api/views.py:96 | Lower-casing twice is lower-casing once. |
| `IngredientSearch.EmptyQueryUnchanged` | backend/api/views.py:87-90 | An absent or empty name returns the catalogue unchanged. |
| `IngredientSearch.QueryIsLowered` | backend/api/views.py:91-96 | The query, whether percent-decoded or layout-translated, ends up in lower case. |
| `IngredientSearch.StartsImpliesContains` | backend/api/views.py:97-99 | A prefix match is also a substring match. |
| `IngredientSearch.PrefixMatchesFirst` | backend/api/views.py:97-103 | Every prefix match precedes every other match in the result. |
| `IngredientSearch.SearchFindsContaining` | backend/api/views.py:97-102 | The result holds exactly the catalogue entries whose name contains the query. |
| `IngredientSearch.SearchNoDuplicates` | backend/api/views.py:98-102 | A catalogue without duplicates gives a result without duplicates. |
| `IngredientSearch.SearchKeepsCatalogueOrder` | backend/api/views.py:97-102 | Within each group the catalogue order is kept. |
| `RecipeFilters.RecipeQueryset` | backend/api/views.py:117-145 | The filter chain returns `Listing`: each recipe repeated once per row its joins yield, with the repeats dropped when tags were given. |
| `RecipeFilters.MultiplicityPositive` | backend/api/views.py:117-145 | A recipe yields at least one row exactly when it satisfies `Selected`, that is, passes every filter the query applies. |
| `RecipeFilters.TagStep` | backend/api/views.py:120-124 | The tag join yields one row per tag of the recipe whose slug was asked for. With no slugs given, the table is unchanged. |
| `RecipeFilters.AuthorStep` | backend/api/views.py:126-128 | The author filter keeps the rows of that author's recipes. |
| `RecipeFilters.NoAuthorStep` | backend/api/views.py:126-128 | Without an author parameter the rows are unchanged. |
| `RecipeFilters.AnonymousStep` | backend/api/views.py:130-131 | An anonymous user's list stops after the tag and author filters. |
| `RecipeFilters.CartStep` | backend/api/views.py:133-137 | "1"/"true" joins the user's cart rows, one row per match. "0"/"false" excludes the carted recipes. Any other value changes nothing. |
| `RecipeFilters.FavoriteStep` | backend/api/views.py:139-143 | The same three readings, applied to favourites. |
| `RecipeFilters.FlagReadings` | backend/api/enums.py:6-7 | The true and false spellings of a flag, and every other value, read as stated. |
| `RecipeFilters.ListedIff` | backend/api/views.py:117-145 | A recipe is listed exactly when it is in the table and passes every filter. With tags given the list has no repeats. Without tags a recipe occurs as often as it occurs in the table times the rows its joins yield. |
| `RecipeFilters.ListedOnce` | backend/api/views.py:117-145 | A duplicate-free table lists each selected recipe once, in table order, when tags are given. Without tags this holds only when the user has at most one cart row and one favourite row per recipe, which the schema does not enforce (models.py:240-243, 271-274). |
| `RecipeFilters.DuplicateCartRowListedTwice` | backend/api/views.py:133-135 | Example: two cart rows for one recipe, no tags and a true cart flag list the recipe twice. |
| `RecipeFilters.AnonymousIgnoresFlags` | backend/api/views.py:130-131 | For an anonymous user the cart and favourite flags make no difference. |
| `RecipeFilters.CartFlagSplits` | backend/api/views.py:133-137 | Under the "true" reading of the cart flag every listed recipe is carted. Under the "false" reading none is. |
| `ShoppingList.DownloadShoppingCart` | backend/api/views.py:177-206 | The loop that appends lines produces exactly `ShoppingReport`. |
| `ShoppingList.NoCartRefused` | backend/api/views.py:180-181 | A user with nothing in the cart gets a bad-request answer. |
| `ShoppingList.ReportFramed` | backend/api/views.py:184-201 | The report starts with the header naming the user and ends with the Foodgram footer. |
| `ShoppingList.ReportLines` | backend/api/views.py:188-198 | Between header and footer there is one "name: amount unit" line per distinct (name, unit). Its amount is the sum over all line items of the user's carted recipes. |
| `ShoppingList.AggregateGroups` | backend/api/views.py:188-193 | Grouping gives distinct keys, exactly the keys of the rows, and for each key the total of its rows. |
| `ShoppingList.GroupTotals` | backend/api/views.py:188-193 | Each group's amount is the total of the rows with its key. |
| `ShoppingList.FlourSummed` | backend/api/views.py:193-198 | Example: 200 g and 150 g of flour give the line "мука: 350 г". |
| `Decimal.NatToStringRoundTrip` | backend/api/views.py:196-198 | A rendered amount is a digit string that reads back as the same number. |
| `Serializers.Validate` | backend/api/serializers.py:178-196 | Missing or empty tags or ingredients are refused first, then a bad tag, then a bad ingredient. On success the data holds the submitted tag ids, the validator's output and the request user. |
| `Serializers.TagErrorFirst` | backend/api/serializers.py:188-189 | Example: `Validate` on an unknown tag together with a malformed amount reports the tag message, because the tag check runs first. |
| `Serializers.RecipeRecord.constructor` | backend/api/serializers.py:210 | A new row holds the given fields, with no tags and no line items yet. |
| `Serializers.RecipeRecord.SetAttribute` | backend/api/serializers.py:222-223 | `setattr` on an attribute key changes that one field only. |
| `Serializers.RecipeRecord.SetAttributes` | backend/api/serializers.py:221-223 | Every attribute key of the data overwrites its field. Every other field is unchanged. |
| `Serializers.RecipeRecord.Update` | backend/api/serializers.py:215-234 | Attribute keys overwrite fields. Non-empty tags and ingredients replace the old ones, not merge with them. A builder failure leaves the row unchanged. |
| `Serializers.Create` | backend/api/serializers.py:198-213 | A fresh row with the data's fields, tags equal to the submitted ids, and one line item per validated ingredient. Nothing is created when the builder fails. |
| `Serializers.IsSubscribedIff` | backend/api/serializers.py:33-40 | True exactly for a signed-in viewer, other than the user shown, who holds a subscription to them. |
| `Serializers.NeverSubscribedToSelf` | backend/api/serializers.py:37-38 | False for oneself and for an anonymous viewer. |
| `Serializers.SubscribeListAgrees` | backend/api/serializers.py:87-94 | For every author the subscription list shows, its constant `True` agrees with the general answer exactly when the viewer is signed in and is not that author. |
| `Serializers.SelfSubscriptionDisagrees` | backend/api/serializers.py:37-38 | The (user, author) constraint allows a self-subscription. On it the list answers `True` while `get_is_subscribed` answers `False`. |

## Left out

Not modelled:

- HTTP and DRF plumbing: responses, status codes other than the empty-cart 400, the attachment filename, routing and pagination.
- The ORM queries: every table is an input. `Sum` and `values` are an explicit group-by, ordered by first appearance, because the database's group order is unspecified.
- Dict order: the validator's dict is a map. So the builder's output order is stated as a distinct key sequence covering the dict, not as insertion order.
- `unquote` (percent-decoding, section 2.1 of RFC 3986): it is a function parameter of the search.
- `str.lower` and `str.isdigit`: these are modelled for ASCII and the basic Cyrillic letters only. Other Unicode digits and case pairs are out of scope.
- The database's `LIKE` collation for `istartswith` and `icontains`: it is modelled as lower-casing both sides.
- `slugify` and `Base64ImageField`.
- The DRF field-level validation of name, text, image and cooking time that runs before `validate`. The field constraints are stated as the predicates `ValidTag`, `ValidIngredient`, `ValidRecipe` and `ValidLineItem`.
- The mixins and `_add_del_obj`. mixins.py does not define `AddDelViewMixin` or `_add_del_obj`, and no other source file does.
- The management commands, the admin configuration and the user schema.
- `set_password`.
- `@atomic`: `Update` gets its all-or-nothing effect by building the line items before any field is written. `Create` returns no record when the builder fails.

Other gaps:

- `ApiValidators.IngredientsValidator`, `ApiValidators.ValidateIngredients` and `ApiValidators.TagsExistValidator`: ingredient and tag ids are integers, and amounts are integers or strings. The source takes untyped JSON, and these cases are not modelled:
  - a non-numeric tag id makes `Tag.objects.filter(id__in=…)` raise an error, not a ValidationError (validators.py:10-15);
  - a string id `"1"` and an integer id `1` become separate dict keys (validators.py:26,30);
  - a string id that resolves raises `KeyError` at validators.py:40;
  - a boolean amount passes the `isinstance(..., int)` test;
  - a float or null amount raises `AttributeError` on `.isdigit()` at validators.py:23.

- `RecipeFilters.Listing`: SQL leaves open the order of rows that tie on `-pub_date`, so the model keeps a recipe's repeated rows together, in table order.
- `Models.ShoppingCartText`: the cart's user column is nullable (models.py:261), and a row without a user renders as `None`. The model has no such row. Its `Anonymous` renders as "AnonymousUser" and stands for the request user only.
- `Services.ValidatedItemsUnique`: proves amounts of at least 1 but not the column limit of 32767. The validator never checks that limit, so an over-large sum would fail only in the database.
- `Serializers.RecipeRecord.Update`: models the stored row. After a builder failure the Python object keeps the attributes already set, but the rollback discards them.
- `Serializers.Create`: the primary key of the new row is a parameter, because the database allocates it.
- `Serializers.IsSubscribed`: modelled by the intended relation, the viewer's subscriptions. The source reaches it through `user.subscriptions`, a related name the schema does not define (it defines `follower`).

Broken references in the source, modelled by the relation they evidently mean:

- `IngredientInRecipe`: it stands for `RecipeIngredient`.
- The `ingredients=ingredient` keyword in the builder (services.py:23): the line-item field is `ingredient` (models.py:154).
- The `recipe__recipe__…` filter and `Sum('recipe__amount')` in the shopping list (views.py:189,193): they stand for the cart's line items and their amounts.
- `in_carts`, `carts` and `in_favorites`: they stand for the cart and favourite rows of the user.
- `AdminOrReadOnly.has_object_permission`: it is declared without its `obj` parameter, and only its boolean body is modelled.
- `TagSerializer.validate`: its `value.sttrip` call is not modelled.

Not reproduced:

- `ShoppingList.ShoppingReport`: an anonymous downloader gets the bad-request answer. The source would raise `AttributeError` on `user.carts`.
- `RecipeFilters.RecipeQueryset`: the author parameter is taken as an integer id. A non-numeric value, which would make the ORM raise, is not modelled.
- `IngredientSearch.SearchIngredients`: ingredients are compared by value. Django compares model instances by primary key, which agrees for rows of one table.
- `UserSerializer.create`, the favourite and cart flags of `RecipeSerializer`, and `TagSerializer` are not part of this model.
