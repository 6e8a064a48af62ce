/** The bulletin editor: a local copy of the context's bulletin text and form
    link, saved through the context's `updateBulletinInfo` and written to
    `localStorage` under "bulletinInfo", followed by a best-effort clearing of
    the browser's response caches. */
module BulletinEditor {
  import opened Wrappers
  import opened Json
  import opened LocalStorage
  import AdminContext

  datatype Bulletin = Bulletin(text: string, formLink: string)

  const BulletinKey := "bulletinInfo"

  /** `JSON.stringify({text, formLink})`. */
  function EncodeBulletin(b: Bulletin): string {
    EncodePair("text", "formLink", b.text, b.formLink)
  }

  /** The stored bulletin holds exactly its text and form link, and nothing
      else: decoding it as a `{text, formLink}` record gives them back. */
  lemma StoredBulletinHoldsExactlyItsFields(b: Bulletin)
    ensures DecodePair("text", "formLink", EncodeBulletin(b)) == Some((b.text, b.formLink))
  {
    DecodeEncodePair("text", "formLink", b.text, b.formLink);
  }

  /** Different bulletins are stored as different texts. */
  lemma EncodeBulletinInjective(b: Bulletin, c: Bulletin)
    requires EncodeBulletin(b) == EncodeBulletin(c)
    ensures b == c
  {
    EncodePairInjective("text", "formLink", b.text, b.formLink, c.text, c.formLink);
  }

  /** The best-effort cache clearing. Enumerating and deleting the caches is
      the browser's business; a failure is caught and logged inside, so the
      step always returns and changes nothing this model holds. */
  method ClearCaches(cachesAvailable: bool, deletionFails: bool)
  {
  }

  class Editor {
    const storage: Storage
    var text: string
    var formLink: string
    var isSuccess: bool
    var isError: bool

    /** The local state starts as the context's current bulletin. */
    constructor (storage: Storage, current: Bulletin)
      ensures this.storage == storage
      ensures text == current.text && formLink == current.formLink
      ensures !isSuccess && !isError
    {
      this.storage := storage;
      text := current.text;
      formLink := current.formLink;
      isSuccess := false;
      isError := false;
    }

    /** `handleInputChange`: only the field the input names changes. */
    method HandleInputChange(name: string, value: string)
      modifies this`text, this`formLink
      ensures text == (if name == "text" then value else old(text))
      ensures formLink == (if name == "formLink" then value else old(formLink))
    {
      if name == "text" {
        text := value;
      } else if name == "formLink" {
        formLink := value;
      }
    }

    /** `handleSubmit`. The calls into code outside this model are given by
        their outcomes: whether `updateBulletinInfo` throws, whether
        `setItem` throws, whether the browser offers caches and whether
        deleting them fails. Both flags are cleared first. Any exception from
        the first two stops the handler with only `isError` set and nothing
        stored; otherwise the store holds the bulletin and the handler ends
        in success, whatever happened to the caches. */
    method HandleSubmit(updateThrows: bool, setItemThrows: bool, cachesAvailable: bool, deletionFails: bool)
      modifies this`isSuccess, this`isError, storage
      ensures text == old(text) && formLink == old(formLink)
      ensures isError <==> updateThrows || setItemThrows
      ensures isSuccess <==> !isError
      ensures storage.items ==
        if updateThrows || setItemThrows then old(storage.items)
        else old(storage.items)[BulletinKey := EncodeBulletin(Bulletin(text, formLink))]
    {
      isSuccess := false;
      isError := false;
      if updateThrows {
        isError := true;
        return;
      }
      if setItemThrows {
        isError := true;
        return;
      }
      storage.SetItem(BulletinKey, EncodeBulletin(Bulletin(text, formLink)));
      ClearCaches(cachesAvailable, deletionFails);
      isSuccess := true;
    }
  }

  /** The bulletin key is neither of the admin context's keys. */
  lemma BulletinKeyIsSeparate()
    ensures BulletinKey != AdminContext.AuthKey && BulletinKey != AdminContext.AboutUsKey
  {
    assert BulletinKey[0] != AdminContext.AuthKey[0];
    assert BulletinKey[0] != AdminContext.AboutUsKey[0];
  }

  /** The editor and the admin context share one store; a bulletin save,
      successful or not, keeps the store mirroring the session and About-Us. */
  method SaveKeepsSession(p: AdminContext.Provider, e: Editor, updateThrows: bool, setItemThrows: bool,
                          cachesAvailable: bool, deletionFails: bool)
    requires p.Valid() && e.storage == p.storage
    modifies e, e.storage
    ensures p.Valid()
  {
    BulletinKeyIsSeparate();
    e.HandleSubmit(updateThrows, setItemThrows, cachesAvailable, deletionFails);
  }
}
