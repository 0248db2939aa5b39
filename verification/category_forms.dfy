/** The category manager's forms. The settings tab
    (src/modules/settings/components/categories/categories-tab.tsx), its
    older copy (src/modules/settings/components/tabs/categories-tab.tsx) and
    the popup's manager (src/components/CategoryManagement.tsx, create and
    delete only) run the same handlers over the same form state: a create
    form and an edit form, each reset to a blank name, the `Circle` icon and
    the first palette colour. The random id of a new category and the
    answer to the delete confirmation are inputs. A handler yields the
    record it writes to storage, if any, and the next form state. */
module CategoryForms {
  import opened Wrappers
  import opened Model
  import Text
  import Storage

  datatype CreateForm = CreateForm(isCreating: bool, newName: string, newIcon: string, newColor: string)

  /** `editingId` is `null` as `None`. */
  datatype EditForm = EditForm(editingId: Option<string>, editName: string, editIcon: string, editColor: string)

  /** Both forms of one manager. */
  datatype Forms = Forms(create: CreateForm, edit: EditForm)

  /** The create form after a create: closed and back on its defaults. */
  const CREATE_DEFAULTS: CreateForm := CreateForm(false, "", DEFAULT_ICON, CATEGORY_COLORS[0])

  /** The edit form when nothing is being edited. */
  const EDIT_DEFAULTS: EditForm := EditForm(None, "", DEFAULT_ICON, CATEGORY_COLORS[0])

  /** What a mounted manager starts from. */
  const INITIAL_FORMS: Forms := Forms(CREATE_DEFAULTS, EDIT_DEFAULTS)

  /** `handleCreate`: a blank name changes nothing; otherwise the category
      named by the trimmed name, with the form's icon and colour, is
      appended and the create form is reset and closed. */
  function HandleCreate(stored: Option<StorageData>, form: CreateForm, newId: string): (r: (Option<StorageData>, CreateForm))
    ensures r.0.None? <==> Text.IsBlank(form.newName)
    ensures r.0.None? ==> r.1 == form
    ensures r.0.Some? ==> r.1 == CREATE_DEFAULTS
    ensures r.0.Some? ==>
              var before := Storage.GetStorageData(stored);
              && |r.0.value.categories| == |before.categories| + 1
              && r.0.value.categories[..|before.categories|] == before.categories
              && r.0.value.channels == before.channels
              && r.0.value.activeFilters == before.activeFilters
              && var c := r.0.value.categories[|before.categories|];
                 && c.id == newId && c.icon == form.newIcon && c.color == form.newColor
                 && c.name == Text.Trim(form.newName) && |c.name| > 0
  {
    var name := Text.Trim(form.newName);
    Text.TrimEmptyIffBlank(form.newName);
    if |name| == 0 then (None, form)
    else
      var d := Storage.AddCategory(stored, Category(newId, name, form.newIcon, form.newColor));
      assert d.categories[..|Storage.GetStorageData(stored).categories|] == Storage.GetStorageData(stored).categories;
      (Some(d), CREATE_DEFAULTS)
  }

  /** A created category is stored under a name that needs no further
      trimming: creating again from that name would store the same name. */
  lemma CreatedNameIsTrimmed(stored: Option<StorageData>, form: CreateForm, newId: string)
    requires HandleCreate(stored, form, newId).0.Some?
    ensures var name := Text.Trim(form.newName);
            Text.Trim(name) == name && !Text.IsBlank(name)
  {
    Text.TrimIdempotent(form.newName);
    Text.TrimEmptyIffBlank(Text.Trim(form.newName));
  }

  /** `handleDelete`: the category is deleted only when the user confirms. */
  function HandleDelete(stored: Option<StorageData>, categoryId: string, confirmed: bool): (r: Option<StorageData>)
    ensures !confirmed <==> r.None?
    ensures confirmed ==> r == Some(Storage.DeleteCategory(stored, categoryId))
    ensures r.Some? ==> forall c :: c in r.value.categories ==> c.id != categoryId
    ensures r.Some? ==> r.value.activeFilters == Storage.GetStorageData(stored).activeFilters
  {
    if confirmed then Some(Storage.DeleteCategory(stored, categoryId)) else None
  }

  /** `handleStartEdit`: the edit form takes the category's fields and the
      create form closes, keeping what was typed into it. */
  function HandleStartEdit(forms: Forms, c: Category): (r: Forms)
    ensures r.edit == EditForm(Some(c.id), c.name, c.icon, c.color)
    ensures !r.create.isCreating
    ensures r.create.(isCreating := forms.create.isCreating) == forms.create
  {
    Forms(forms.create.(isCreating := false), EditForm(Some(c.id), c.name, c.icon, c.color))
  }

  /** `!editingId`: no category is being edited, or its id is the empty
      string, which JavaScript also reads as false. */
  predicate NoEditTarget(editingId: Option<string>) {
    editingId.None? || editingId.value == ""
  }

  /** `handleSaveEdit`: a blank name or no edit target changes nothing;
      otherwise the category with the edited id is replaced by one with the
      trimmed name and the form's icon and colour (nothing is written when
      storage has no such category) and the edit form is reset. */
  function HandleSaveEdit(stored: Option<StorageData>, edit: EditForm): (r: (Option<StorageData>, EditForm))
    ensures Text.IsBlank(edit.editName) || NoEditTarget(edit.editingId) ==> r == (None, edit)
    ensures !Text.IsBlank(edit.editName) && !NoEditTarget(edit.editingId) ==>
              && r.1 == EDIT_DEFAULTS
              && r.0 == Storage.UpdateCategory(stored, Category(edit.editingId.value, Text.Trim(edit.editName), edit.editIcon, edit.editColor))
  {
    Text.TrimEmptyIffBlank(edit.editName);
    var name := Text.Trim(edit.editName);
    if |name| == 0 || NoEditTarget(edit.editingId) then (None, edit)
    else
      (Storage.UpdateCategory(stored, Category(edit.editingId.value, name, edit.editIcon, edit.editColor)), EDIT_DEFAULTS)
  }

  /** `handleCancelEdit`: the edit form is reset and nothing is written. */
  function HandleCancelEdit(edit: EditForm): (r: EditForm)
    ensures r.editingId.None? && r.editName == ""
    ensures r.editIcon == DEFAULT_ICON && r.editColor == CATEGORY_COLORS[0]
  {
    EDIT_DEFAULTS
  }

  /** Opening an edit and cancelling it leaves the edit form as it was
      before any edit, and the create form closed. */
  lemma StartThenCancel(forms: Forms, c: Category)
    ensures HandleCancelEdit(HandleStartEdit(forms, c).edit) == INITIAL_FORMS.edit
  {
  }

  /** Saving an edit that changed nothing writes the loaded category back
      unchanged; by `Storage.UpdateCategorySame` that leaves storage as it
      was when the category is the first with its id. */
  lemma SaveUnchangedWritesLoaded(stored: Option<StorageData>, forms: Forms, c: Category)
    requires c.id != "" && !Text.IsBlank(c.name) && Text.Trim(c.name) == c.name
    ensures HandleSaveEdit(stored, HandleStartEdit(forms, c).edit).0 == Storage.UpdateCategory(stored, c)
  {
    assert HandleStartEdit(forms, c).edit == EditForm(Some(c.id), c.name, c.icon, c.color);
    SaveLoaded(stored, c);
    assert c.(name := Text.Trim(c.name)) == c;
  }

  /** Saving the fields a category loaded writes that category with its
      name trimmed. */
  lemma SaveLoaded(stored: Option<StorageData>, c: Category)
    requires c.id != "" && !Text.IsBlank(c.name)
    ensures HandleSaveEdit(stored, EditForm(Some(c.id), c.name, c.icon, c.color)).0 == Storage.UpdateCategory(stored, c.(name := Text.Trim(c.name)))
  {
    assert !NoEditTarget(Some(c.id));
  }
}
