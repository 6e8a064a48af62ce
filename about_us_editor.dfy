/** The About-Us editor: a local copy of the context's record, edited field by
    field and saved through `updateAboutUs`. */
module AboutUsEditor {
  import opened Wrappers
  import opened AdminContext

  class Editor {
    const ctx: Provider
    var title: string
    var content: string
    var isSuccess: bool
    var isError: bool

    /** The local form state starts as the context's current record. */
    constructor (ctx: Provider)
      ensures this.ctx == ctx
      ensures title == ctx.aboutUs.title && content == ctx.aboutUs.content
      ensures !isSuccess && !isError
    {
      this.ctx := ctx;
      title := ctx.aboutUs.title;
      content := ctx.aboutUs.content;
      isSuccess := false;
      isError := false;
    }

    /** `handleInputChange`: only the field the input names changes. */
    method HandleInputChange(name: string, value: string)
      modifies this`title, this`content
      ensures title == (if name == "title" then value else old(title))
      ensures content == (if name == "content" then value else old(content))
    {
      if name == "title" {
        title := value;
      } else if name == "content" {
        content := value;
      }
    }

    /** `handleSubmit`: both flags are cleared, then exactly the local title
        and content, unchecked, replace the context's record. With
        `updateAboutUs` as the admin context defines it, which only sets
        state, the call always returns, so the handler always ends in
        success. */
    method HandleSubmit()
      requires ctx.Valid()
      modifies this`isSuccess, this`isError, ctx, ctx.storage
      ensures ctx.Valid()
      ensures ctx.aboutUs == AboutUs(title, content)
      ensures ctx.isAuthenticated == old(ctx.isAuthenticated)
      ensures ctx.storage.items == old(ctx.storage.items)[AboutUsKey := EncodeAboutUs(AboutUs(title, content))]
      ensures isSuccess && !isError
    {
      isSuccess := false;
      isError := false;
      ctx.UpdateAboutUs(AboutUs(title, content));
      isSuccess := true;
    }
  }

  /** Editing the title and content, saving and reloading the page shows the
      edited title and content. */
  method SaveThenReload(ctx: Provider, t: string, c: string) returns (reloaded: Option<Provider>)
    requires ctx.Valid()
    modifies ctx, ctx.storage
    ensures reloaded.Some? && reloaded.value.aboutUs == AboutUs(t, c)
    ensures reloaded.value.isAuthenticated == old(ctx.isAuthenticated)
  {
    var editor := new Editor(ctx);
    editor.HandleInputChange("title", t);
    editor.HandleInputChange("content", c);
    editor.HandleSubmit();
    RemountRestores(ctx.storage.items, ctx.isAuthenticated, ctx.aboutUs);
    reloaded := Provider.Mount(ctx.storage);
  }
}
