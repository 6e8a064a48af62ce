/** The admin context: the session flag and the About-Us record, each held in
    component state and mirrored into `localStorage` by an effect that runs
    whenever the value changes. */
module AdminContext {
  import opened Wrappers
  import opened Json
  import opened LocalStorage

  datatype AboutUs = AboutUs(title: string, content: string)

  const DefaultAboutUs := AboutUs(
    "Satellite Research Project",
    "Our research satellite project aims to develop cutting-edge space technology for Earth observation and scientific research. We're a team of passionate students working to design, build, and eventually launch our own satellite. Join us in this exciting journey to explore the frontiers of space technology and make a meaningful contribution to space science.")

  /** The storage keys and the shared admin password. */
  const AuthKey := "adminAuth"
  const AboutUsKey := "aboutUs"
  const Password := "KLPD"

  function EncodeAboutUs(a: AboutUs): string {
    EncodePair("title", "content", a.title, a.content)
  }

  function DecodeAboutUs(s: string): Option<AboutUs> {
    match DecodePair("title", "content", s)
    case None => None
    case Some((t, c)) => Some(AboutUs(t, c))
  }

  lemma AboutUsRoundTrip(a: AboutUs)
    ensures DecodeAboutUs(EncodeAboutUs(a)) == Some(a)
  {
    DecodeEncodePair("title", "content", a.title, a.content);
  }

  lemma AboutUsCanonical(s: string)
    requires DecodeAboutUs(s).Some?
    ensures EncodeAboutUs(DecodeAboutUs(s).value) == s
  {
    EncodeDecodePair("title", "content", s);
  }

  /** The text the session effect stores for a flag value. */
  function AuthText(b: bool): string {
    if b then "true" else "false"
  }

  /** The store holds exactly the current session flag and About-Us record. */
  ghost predicate Mirrors(items: map<string, string>, auth: bool, about: AboutUs) {
    && AuthKey in items && items[AuthKey] == AuthText(auth)
    && AboutUsKey in items && items[AboutUsKey] == EncodeAboutUs(about)
  }

  /** The initialiser of `isAuthenticated`: a previous session is resumed only
      when the stored flag is exactly the text "true". */
  function InitialAuth(items: map<string, string>): (b: bool)
    ensures b <==> AuthKey in items && items[AuthKey] == "true"
  {
    var saved := if AuthKey in items then Some(items[AuthKey]) else None;
    saved == Some("true")
  }

  /** The initialiser of `aboutUs`: a missing or empty stored value gives the
      default; any other stored value is decoded, and `None` is the exception
      that an undecodable value raises. */
  function InitialAboutUs(items: map<string, string>): (r: Option<AboutUs>)
    ensures r.None? <==>
      AboutUsKey in items && items[AboutUsKey] != "" && DecodeAboutUs(items[AboutUsKey]).None?
    ensures AboutUsKey !in items || items[AboutUsKey] == "" ==> r == Some(DefaultAboutUs)
    ensures r.Some? && AboutUsKey in items && items[AboutUsKey] != "" ==>
      EncodeAboutUs(r.value) == items[AboutUsKey]
  {
    var saved := if AboutUsKey in items then items[AboutUsKey] else "";
    if saved != "" then
      var r := DecodeAboutUs(saved);
      if r.Some? then AboutUsCanonical(saved); r else r
    else Some(DefaultAboutUs)
  }

  /** A store written by a mounted provider gives the same session flag and
      About-Us record when the page is loaded again. */
  lemma RemountRestores(items: map<string, string>, auth: bool, about: AboutUs)
    requires Mirrors(items, auth, about)
    ensures InitialAuth(items) == auth
    ensures InitialAboutUs(items) == Some(about)
  {
    AboutUsRoundTrip(about);
  }

  /** A stored About-Us value that cannot be decoded is not replaced by the
      default: mounting fails. */
  lemma CorruptAboutUsFailsMount(items: map<string, string>)
    requires AboutUsKey in items && items[AboutUsKey] == "???"
    ensures InitialAboutUs(items) == None
  {
    assert !(FieldPrefix("{", "title") <= "???");
  }

  /** Writing both records makes any store mirror them. */
  lemma MirrorsAfterWrites(items: map<string, string>, auth: bool, about: AboutUs)
    ensures Mirrors(items[AboutUsKey := EncodeAboutUs(about)][AuthKey := AuthText(auth)], auth, about)
  {
    KeysDistinct();
  }

  lemma KeysDistinct()
    ensures AuthKey != AboutUsKey
  {
    assert AuthKey[1] != AboutUsKey[1];
  }

  class Provider {
    const storage: Storage
    var isAuthenticated: bool
    var aboutUs: AboutUs

    ghost predicate Valid()
      reads this, storage
    {
      Mirrors(storage.items, isAuthenticated, aboutUs)
    }

    /** Only the first half of mounting: the object is not yet `Valid()`,
        since the store is written afterwards; `Mount` is the one caller. */
    constructor Init(storage: Storage, isAuthenticated: bool, aboutUs: AboutUs)
      ensures this.storage == storage
      ensures this.isAuthenticated == isAuthenticated && this.aboutUs == aboutUs
    {
      this.storage := storage;
      this.isAuthenticated := isAuthenticated;
      this.aboutUs := aboutUs;
    }

    /** Mounting the provider: both state initialisers, then the first run of
        the About-Us effect and of the session effect. `None` is the mount
        that throws on an undecodable About-Us value. */
    static method Mount(storage: Storage) returns (r: Option<Provider>)
      modifies storage
      ensures r.None? <==> InitialAboutUs(old(storage.items)).None?
      ensures r.None? ==> storage.items == old(storage.items)
      ensures r.Some? ==>
        && fresh(r.value) && r.value.storage == storage && r.value.Valid()
        && r.value.isAuthenticated == InitialAuth(old(storage.items))
        && r.value.aboutUs == InitialAboutUs(old(storage.items)).value
        && storage.items == old(storage.items)
             [AboutUsKey := EncodeAboutUs(r.value.aboutUs)]
             [AuthKey := AuthText(r.value.isAuthenticated)]
    {
      KeysDistinct();
      var auth := InitialAuth(storage.items);
      var initial := InitialAboutUs(storage.items);
      if initial.None? {
        return None;
      }
      var about := initial.value;
      var p := new Provider.Init(storage, auth, about);
      storage.SetItem(AboutUsKey, EncodeAboutUs(about));
      storage.SetItem(AuthKey, AuthText(auth));
      MirrorsAfterWrites(old(storage.items), auth, about);
      r := Some(p);
    }

    /** `setIsAuthenticated(b)` together with the session effect, which writes
        the store only when the flag actually changes. */
    method SetIsAuthenticated(b: bool)
      requires Valid()
      modifies this, storage
      ensures Valid()
      ensures isAuthenticated == b && aboutUs == old(aboutUs)
      ensures storage.items == old(storage.items)[AuthKey := AuthText(b)]
    {
      if b != isAuthenticated {
        isAuthenticated := b;
        storage.SetItem(AuthKey, AuthText(b));
      } else {
        assert storage.items == storage.items[AuthKey := AuthText(b)];
      }
    }

    /** `login(password)`: only the exact, case-sensitive, untrimmed password
        opens a session; a wrong one changes nothing. */
    method Login(password: string) returns (ok: bool)
      requires Valid()
      modifies this, storage
      ensures Valid()
      ensures ok <==> password == Password
      ensures isAuthenticated == (old(isAuthenticated) || ok)
      ensures aboutUs == old(aboutUs)
      ensures storage.items == if ok then old(storage.items)[AuthKey := "true"] else old(storage.items)
    {
      if password == Password {
        SetIsAuthenticated(true);
        return true;
      }
      return false;
    }

    /** `logout()`: closes the session whatever its state. */
    method Logout()
      requires Valid()
      modifies this, storage
      ensures Valid()
      ensures !isAuthenticated && aboutUs == old(aboutUs)
      ensures storage.items == old(storage.items)[AuthKey := "false"]
    {
      SetIsAuthenticated(false);
    }

    /** `updateAboutUs(a)`: replaces the record wholesale, with no check on its
        fields, and the About-Us effect stores its encoding. */
    method UpdateAboutUs(a: AboutUs)
      requires Valid()
      modifies this, storage
      ensures Valid()
      ensures aboutUs == a && isAuthenticated == old(isAuthenticated)
      ensures storage.items == old(storage.items)[AboutUsKey := EncodeAboutUs(a)]
    {
      aboutUs := a;
      storage.SetItem(AboutUsKey, EncodeAboutUs(a));
    }
  }

  /** A second logout leaves the provider and the store as the first left them. */
  method LogoutIsIdempotent(p: Provider)
    requires p.Valid()
    modifies p, p.storage
    ensures p.Valid() && !p.isAuthenticated && p.aboutUs == old(p.aboutUs)
    ensures p.storage.items == old(p.storage.items)[AuthKey := "false"]
  {
    p.Logout();
    p.Logout();
  }
}
