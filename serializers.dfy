/** api/serializers.py: RecipeSerializer.validate, which gates on the raw
    tags and ingredients and runs the two validators in order; create and
    update, which write a recipe row with its tags and line items; and the
    two get_is_subscribed methods. */
module Serializers {
  import opened Common
  import opened Seqs
  import opened Decimal
  import opened Models
  import opened ApiValidators
  import opened Services

  const NotEnoughDataMessage := "Недостаточно данных."

  /** A value of the serializer's data dict. */
  datatype Value =
    | Text(text: string)
    | Number(number: int)
    | TagIds(ids: seq<int>)
    | Ingredients(entries: map<int, Entry>)
    | Author(user: User)

  /** self.initial_data.get('tags') and .get('ingredients') */
  datatype InitialData = InitialData(tags: Option<seq<int>>, ingredients: Option<seq<Submission>>)

  /** `if not tags_ids or not ingredients`: absent or empty. */
  predicate MissingData(initial: InitialData) {
    initial.tags.None? || initial.tags.value == [] ||
    initial.ingredients.None? || initial.ingredients.value == []
  }

  /** RecipeSerializer.validate(data): the refusals in the order the source
      checks them, and on success `data` with 'tags', 'ingredients' and
      'author' set.  The tag table is the set of its primary keys and the
      ingredient table a map from primary key to row. */
  method Validate(data: map<string, Value>, initial: InitialData, tagTable: set<int>,
                  catalog: map<int, Ingredient>, user: User)
    returns (r: Result<map<string, Value>, Error>)
    ensures MissingData(initial) ==> r == Err(ValidationError(NotEnoughDataMessage))
    ensures !MissingData(initial) && TagsExistValidator(initial.tags.value, tagTable).Fail? ==>
      r == Err(ValidationError(UnknownTagMessage))
    ensures !MissingData(initial) && TagsExistValidator(initial.tags.value, tagTable).Pass? ==>
      match ValidateIngredients(initial.ingredients.value, catalog)
      case Err(e) => r == Err(e)
      case Ok(entries) =>
        r == Ok(data["tags" := TagIds(initial.tags.value)]["ingredients" := Ingredients(entries)]["author" := Author(user)])
  {
    var tagsIds := initial.tags;
    var ingredients := initial.ingredients;
    if tagsIds.None? || tagsIds.value == [] || ingredients.None? || ingredients.value == [] {
      return Err(ValidationError(NotEnoughDataMessage));
    }
    var tagCheck := TagsExistValidator(tagsIds.value, tagTable);
    if tagCheck.Fail? {
      return Err(tagCheck.error);
    }
    var validated := IngredientsValidator(ingredients.value, catalog);
    if validated.Err? {
      return Err(validated.error);
    }
    var updated := data;
    updated := updated["tags" := TagIds(tagsIds.value)];
    updated := updated["ingredients" := Ingredients(validated.value)];
    updated := updated["author" := Author(user)];
    return Ok(updated);
  }

  /** A submission with an unknown tag and a malformed amount: both checks
      would fail, and Validate reports the tag, since that check runs first. */
  method TagErrorFirst() returns (r: Result<map<string, Value>, Error>)
    ensures r == Err(ValidationError(UnknownTagMessage))
  {
    var found := set t | t in [7] && t in {1};
    assert found == {};
    assert !IsDigit("x"[0]);
    assert ValidateIngredients([Submission(1, TextAmount("x"))], map[]).Err?;
    r := Validate(map[], InitialData(Some([7]), Some([Submission(1, TextAmount("x"))])), {1}, map[], Anonymous);
  }

  /** The attributes a recipe row has, among the keys validated data can
      hold; hasattr(recipe, key) is false for every other key. */
  const RecipeAttributes: set<string> := {"name", "image", "text", "cooking_time", "author"}

  /** The data a create or update receives: validate's output, every value
      of the type its field expects. */
  predicate WellTyped(data: map<string, Value>) {
    "tags" in data && data["tags"].TagIds? &&
    "ingredients" in data && data["ingredients"].Ingredients? &&
    ("name" in data ==> data["name"].Text?) &&
    ("image" in data ==> data["image"].Text?) &&
    ("text" in data ==> data["text"].Text?) &&
    ("cooking_time" in data ==> data["cooking_time"].Number?) &&
    ("author" in data ==> data["author"].Author?)
  }

  function TextField(data: map<string, Value>, key: string, default: string): string {
    if key in data && data[key].Text? then data[key].text else default
  }

  /** A stored recipe: its row and the rows of its tag and line-item
      relations. */
  class RecipeRecord {
    const id: int
    var author: User
    var name: string
    var image: string
    var text: string
    var cookingTime: int
    var tags: set<int>
    var items: seq<RecipeIngredient>

    constructor (id: int, author: User, name: string, image: string, text: string, cookingTime: int)
      ensures this.id == id && this.author == author && this.name == name && this.image == image
      ensures this.text == text && this.cookingTime == cookingTime
      ensures tags == {} && items == []
    {
      this.id := id;
      this.author := author;
      this.name := name;
      this.image := image;
      this.text := text;
      this.cookingTime := cookingTime;
      tags := {};
      items := [];
    }

    /** setattr(recipe, key, value) for an attribute key. */
    method SetAttribute(key: string, value: Value)
      requires key in RecipeAttributes
      requires key == "cooking_time" ==> value.Number?
      requires key == "author" ==> value.Author?
      requires key in {"name", "image", "text"} ==> value.Text?
      modifies this
      ensures key == "name" ==> name == value.text
      ensures key == "image" ==> image == value.text
      ensures key == "text" ==> text == value.text
      ensures key == "cooking_time" ==> cookingTime == value.number
      ensures key == "author" ==> author == value.user
      ensures key != "name" ==> name == old(name)
      ensures key != "image" ==> image == old(image)
      ensures key != "text" ==> text == old(text)
      ensures key != "cooking_time" ==> cookingTime == old(cookingTime)
      ensures key != "author" ==> author == old(author)
      ensures tags == old(tags) && items == old(items)
    {
      if key == "name" {
        name := value.text;
      } else if key == "image" {
        image := value.text;
      } else if key == "text" {
        text := value.text;
      } else if key == "cooking_time" {
        cookingTime := value.number;
      } else {
        author := value.user;
      }
    }

    /** The `for key, value in validated_data.items()` loop: each key the
        recipe has as an attribute overwrites that field; every other key,
        and every field without a key, is left alone. */
    method SetAttributes(data: map<string, Value>)
      requires WellTyped(data)
      modifies this
      ensures name == TextField(data, "name", old(name))
      ensures image == TextField(data, "image", old(image))
      ensures text == TextField(data, "text", old(text))
      ensures cookingTime == if "cooking_time" in data then data["cooking_time"].number else old(cookingTime)
      ensures author == if "author" in data then data["author"].user else old(author)
      ensures tags == old(tags) && items == old(items)
    {
      var pending := data.Keys;
      ghost var done: set<string> := {};
      while pending != {}
        invariant pending + done == data.Keys && pending !! done
        invariant name == (if "name" in done then data["name"].text else old(name))
        invariant image == (if "image" in done then data["image"].text else old(image))
        invariant text == (if "text" in done then data["text"].text else old(text))
        invariant cookingTime == (if "cooking_time" in done then data["cooking_time"].number else old(cookingTime))
        invariant author == (if "author" in done then data["author"].user else old(author))
        invariant tags == old(tags) && items == old(items)
        decreases pending
      {
        if forall k :: k !in pending { assert false; }
        var key :| key in pending;
        if key in RecipeAttributes {
          SetAttribute(key, data[key]);
        }
        pending := pending - {key};
        done := done + {key};
      }
    }

    /** RecipeSerializer.update(recipe, validated_data).  Every attribute
        key of the data overwrites its field and nothing else is touched;
        non-empty tags and ingredients replace the old ones.  A failure of
        the line-item builder rolls the transaction back: the stored recipe
        is left as it was. */
    method Update(data: map<string, Value>) returns (r: Outcome<Error>)
      requires WellTyped(data)
      modifies this
      ensures r.Fail? ==> r.error == UnpackError && unchanged(this)
      ensures r.Pass? <==> forall k :: k in data["ingredients"].entries ==> data["ingredients"].entries[k].Paired?
      ensures r.Pass? ==>
        name == TextField(data, "name", old(name)) &&
        image == TextField(data, "image", old(image)) &&
        text == TextField(data, "text", old(text)) &&
        cookingTime == (if "cooking_time" in data then data["cooking_time"].number else old(cookingTime)) &&
        author == (if "author" in data then data["author"].user else old(author))
      ensures r.Pass? ==> tags == if data["tags"].ids != [] then Elements(data["tags"].ids) else old(tags)
      ensures r.Pass? ==> if data["ingredients"].entries != map[]
        then exists order :: BuiltFrom(id, data["ingredients"].entries, order, items)
        else items == old(items)
    {
      var tagIds := data["tags"].ids;
      var ingredients := data["ingredients"].entries;
      var built, order := RecipeIngredientsSet(id, ingredients);
      if built.Err? {
        return Fail(built.error);
      }
      SetAttributes(data);
      if tagIds != [] {
        tags := Elements(tagIds);
      }
      if ingredients != map[] {
        items := built.value;
      }
      return Pass;
    }
  }

  /** RecipeSerializer.create(validated_data): a new recipe row with the
      data's fields, its tags set to exactly the submitted ids and one line
      item per validated ingredient; nothing is stored when the line items
      cannot be built. */
  method Create(id: int, data: map<string, Value>) returns (r: Result<RecipeRecord, Error>)
    requires WellTyped(data)
    requires "author" in data && "name" in data && "image" in data && "text" in data && "cooking_time" in data
    ensures r.Ok? <==> forall k :: k in data["ingredients"].entries ==> data["ingredients"].entries[k].Paired?
    ensures r.Err? ==> r.error == UnpackError
    ensures r.Ok? ==> fresh(r.value) && r.value.id == id
    ensures r.Ok? ==>
      r.value.author == data["author"].user && r.value.name == data["name"].text &&
      r.value.image == data["image"].text && r.value.text == data["text"].text &&
      r.value.cookingTime == data["cooking_time"].number
    ensures r.Ok? ==> r.value.tags == Elements(data["tags"].ids)
    ensures r.Ok? ==> exists order :: BuiltFrom(id, data["ingredients"].entries, order, r.value.items)
  {
    var tagIds := data["tags"].ids;
    var ingredients := data["ingredients"].entries;
    var recipe := new RecipeRecord(id, data["author"].user, data["name"].text, data["image"].text,
                                   data["text"].text, data["cooking_time"].number);
    recipe.tags := Elements(tagIds);
    var built, order := RecipeIngredientsSet(id, ingredients);
    if built.Err? {
      return Err(built.error);
    }
    recipe.items := built.value;
    return Ok(recipe);
  }

  // is_subscribed

  /** UserSerializer.get_is_subscribed: false for an anonymous viewer and
      for oneself, otherwise whether the viewer follows `obj`. */
  function IsSubscribed(viewer: User, obj: User, subs: seq<Subscribe>): bool {
    if viewer.Anonymous? || SameUser(viewer, obj) then false
    else exists k :: 0 <= k < |subs| && SameUser(subs[k].user, viewer) && SameUser(subs[k].author, obj)
  }

  /** UserSubscribeSerializer.get_is_subscribed */
  function SubscribeListIsSubscribed(viewer: User, obj: User): bool {
    true
  }

  /** is_subscribed is true exactly for a signed-in viewer, other than
      `obj`, who holds a subscription to `obj`. */
  lemma IsSubscribedIff(viewer: User, obj: User, subs: seq<Subscribe>)
    ensures IsSubscribed(viewer, obj, subs) <==>
      viewer.Registered? && !SameUser(viewer, obj) &&
      exists k :: 0 <= k < |subs| && SameUser(subs[k].user, viewer) && SameUser(subs[k].author, obj)
  {
  }

  lemma NeverSubscribedToSelf(viewer: User, subs: seq<Subscribe>)
    ensures !IsSubscribed(viewer, viewer, subs)
    ensures !IsSubscribed(Anonymous, viewer, subs)
  {
  }

  /** The subscriptions list shows only authors the viewer follows.  On
      every author it lists, its constant answer agrees with the general one
      exactly when the viewer is signed in and is not that author. */
  lemma SubscribeListAgrees(viewer: User, obj: User, subs: seq<Subscribe>, k: nat)
    requires k < |subs| && SameUser(subs[k].user, viewer) && SameUser(subs[k].author, obj)
    ensures SubscribeListIsSubscribed(viewer, obj) == IsSubscribed(viewer, obj, subs) <==>
      viewer.Registered? && !SameUser(viewer, obj)
  {
  }

  /** The (user, author) constraint does not forbid following oneself; on
      such a row the subscriptions list answers True where
      get_is_subscribed answers False. */
  lemma SelfSubscriptionDisagrees()
    ensures var me := Registered(1, "me@host", "me", "Me", true, false);
      SubscriptionsUnique([Subscribe(me, me)]) &&
      SubscribeListIsSubscribed(me, me) != IsSubscribed(me, me, [Subscribe(me, me)])
  {
  }
}
