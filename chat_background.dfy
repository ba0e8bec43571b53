/**
  The chat background image lookup: knockout-mode wallpaper substitution, the
  one-slot image cache keyed on (wallpaper, blur flag), which load paths may
  write that slot, and the cache-hit and pattern branches of the asynchronous
  variant.

  Images, bundle files and media resources are opaque values; everything the
  lookup asks the outside world (is the bundle file there, does a resource
  have a completed path, does the blurred representation load, does a file
  decode) is a field of an `Environment` value.
*/
module ChatBackground {
  import opened Wrappers

  /** A decoded image (`UIImage`); only its identity matters here. */
  datatype Bitmap = Bitmap(id: nat)

  /** A media resource of a wallpaper. */
  datatype Resource = Resource(id: nat)

  /** A file-system path handed out by the bundle or a media box. */
  datatype Path = Path(id: nat)

  /** One stored size of an image wallpaper. */
  datatype Representation = Representation(resource: Resource, width: nat, height: nat)

  datatype WallpaperSettings = WallpaperSettings(blur: bool, rotation: Option<int>)

  /**
    The wallpaper kinds the lookup distinguishes. `isPattern` is the
    wallpaper's own pattern test (a pattern file is tinted at draw time and
    never turned into a background image here). Each kind carries the fields
    the lookup reads plus the wallpaper's identity fields (the gradient's id;
    the file's id, access hash, flags and slug), because the cache key
    compares wallpapers. Settings are reduced to blur and rotation, and a
    file to its media resource.
  */
  datatype Wallpaper =
    | BuiltinWallpaper(settings: WallpaperSettings)
    | ColorWallpaper(argb: nat)
    | GradientWallpaper(gradientId: Option<int>, colors: seq<nat>, settings: WallpaperSettings)
    | ImageWallpaper(representations: seq<Representation>, settings: WallpaperSettings)
    | FileWallpaper(
        id: int, accessHash: int, isCreator: bool, isDefault: bool, isPattern: bool, isDark: bool,
        slug: string, resource: Resource, settings: WallpaperSettings)
  {
    /** `wallpaper.settings`: a plain colour has none. */
    function Settings(): Option<WallpaperSettings>
    {
      if ColorWallpaper? then None else Some(settings)
    }
  }

  /**
    `wallpaper.settings?.blur ?? false`, the second half of the cache key.
    The ensures only unfolds the optional; what the flag means for the
    lookup is stated by `HitIsWallpaperEquality` and
    `BlurConsultedOnlyWhenBlurredAndComposed`.
  */
  function BlurFlag(w: Wallpaper): (b: bool)
    ensures b <==> w.Settings().Some? && w.Settings().value.blur
  {
    match w.Settings()
    case None => false
    case Some(s) => s.blur
  }

  datatype BuiltinThemeName = Day | Night | NightAccent | DayClassic

  datatype ThemeName = BuiltinTheme(name: BuiltinThemeName) | CustomTheme

  /** The parts of a presentation theme the lookup reads. */
  datatype Theme = Theme(name: ThemeName, defaultWallpaper: Wallpaper)

  /** The answers the outside world gives during one lookup. */
  datatype Environment = Environment(
    /** The bundled "ChatWallpaperBuiltin0.jpg", when the bundle has it. */
    bundlePath: Option<Path>,
    /** Decoding the file at a path; nil when it does not decode. */
    loadImage: Path -> Option<Bitmap>,
    /** The 1x1 image filled with an ARGB colour. */
    colorImage: nat -> Option<Bitmap>,
    /** The 640x1280 linear gradient with the given colours and rotation. */
    gradientImage: (seq<nat>, Option<int>) -> Option<Bitmap>,
    /** The same gradient drawn at thumbnail size for the asynchronous variant. */
    gradientThumbnail: (seq<nat>, Option<int>) -> Option<Bitmap>,
    /** The largest of an image wallpaper's representations. */
    largest: seq<Representation> -> Option<Resource>,
    /** The blurred representation, when it is complete at once and decodes. */
    blurred: Resource -> Option<Bitmap>,
    /** The completed path of a resource in the media box. */
    completedPath: Resource -> Option<Path>,
    /** The completed path of a resource in the account's media box. */
    accountCompletedPath: Resource -> Option<Path>,
    /** Whether the blurred representation is already complete on disk. */
    blurredOnDisk: Resource -> bool)

  /** The contents of the one-slot cache: the key (wallpaper, blur flag) and the image. */
  datatype CacheEntry = CacheEntry(wallpaper: Wallpaper, blur: bool, image: Bitmap)

  /** A slot is well-formed when its blur flag is the one its wallpaper implies. */
  predicate SlotValid(slot: Option<CacheEntry>)
  {
    slot.Some? ==> slot.value.blur == BlurFlag(slot.value.wallpaper)
  }

  // ---------------------------------------------------------------------------
  // Knockout substitution
  // ---------------------------------------------------------------------------

  /** Whether a knockout-mode theme replaces the wallpaper with its own default. */
  predicate ReplacesWallpaper(theme: Theme)
  {
    match theme.name
    case BuiltinTheme(name) => name != DayClassic
    case CustomTheme => false
  }

  /**
    In knockout mode a built-in day, night or night-accent theme swaps the
    requested wallpaper for the theme's default; every other case keeps it.
  */
  function EffectiveWallpaper(theme: Option<Theme>, wallpaper: Wallpaper, knockoutMode: bool): (w: Wallpaper)
    ensures knockoutMode && theme.Some? && ReplacesWallpaper(theme.value) ==> w == theme.value.defaultWallpaper
    ensures !knockoutMode || theme.None? || !ReplacesWallpaper(theme.value) ==> w == wallpaper
  {
    if knockoutMode && theme.Some? then
      match theme.value.name
      case BuiltinTheme(name) =>
        (match name
         case Day => theme.value.defaultWallpaper
         case Night => theme.value.defaultWallpaper
         case NightAccent => theme.value.defaultWallpaper
         case DayClassic => wallpaper)
      case CustomTheme => wallpaper
    else
      wallpaper
  }

  /** Substituting twice under the same theme is substituting once. */
  lemma KnockoutIdempotent(theme: Option<Theme>, wallpaper: Wallpaper, knockoutMode: bool)
    ensures EffectiveWallpaper(theme, EffectiveWallpaper(theme, wallpaper, knockoutMode), knockoutMode)
      == EffectiveWallpaper(theme, wallpaper, knockoutMode)
  {
  }

  /** The only themes that substitute are the built-in day, night and night-accent ones. */
  lemma KnockoutChangesOnlyForBrightOrDarkBuiltins(theme: Option<Theme>, wallpaper: Wallpaper, knockoutMode: bool)
    requires EffectiveWallpaper(theme, wallpaper, knockoutMode) != wallpaper
    ensures knockoutMode && theme.Some? && theme.value.name.BuiltinTheme?
    ensures theme.value.name.name in {Day, Night, NightAccent}
  {
  }

  // ---------------------------------------------------------------------------
  // The synchronous lookup
  // ---------------------------------------------------------------------------

  /**
    The cache-hit test: only a cached, composed request can hit, and only
    when both the wallpaper and its blur flag equal the stored key (an empty
    slot compares unequal to everything). On a cached, composed request it
    agrees with the asynchronous variant's test.
  */
  predicate CacheHit(slot: Option<CacheEntry>, w: Wallpaper, cached: bool, composed: bool)
    ensures cached && composed ==> (CacheHit(slot, w, cached, composed) <==> SignalCacheHit(slot, w))
    ensures !(cached && composed) ==> !CacheHit(slot, w, cached, composed)
  {
    cached && composed && slot.Some? && w == slot.value.wallpaper && BlurFlag(w) == slot.value.blur
  }

  /** What a load produced, and whether it came from the intended source (`succeed`). */
  datatype Loaded = Loaded(image: Option<Bitmap>, succeed: bool)

  /**
    The load of a blurred-or-plain media wallpaper: the blurred representation
    is asked for only when blur is set and the image is composed; when that
    yields nothing and the resource has a completed path, the raw file is
    loaded and the result is marked as a fallback. So an image that is not a
    fallback is always the blurred representation.
  */
  function LoadMedia(resource: Resource, blur: bool, env: Environment, composed: bool): (l: Loaded)
    ensures l.image.Some? && l.succeed ==> blur && composed && l.image == env.blurred(resource)
  {
    var blurredImage := if blur && composed then env.blurred(resource) else None;
    if blurredImage.None? && env.completedPath(resource).Some? then
      Loaded(env.loadImage(env.completedPath(resource).value), false)
    else
      Loaded(blurredImage, true)
  }

  /**
    The load performed on a cache miss, one branch per wallpaper kind. Only
    a media wallpaper can fall back, and a pattern file yields no image.
  */
  function Load(w: Wallpaper, env: Environment, composed: bool): (l: Loaded)
    ensures !l.succeed ==> MediaResource(w, env).Some?
    ensures w.FileWallpaper? && w.isPattern ==> l == Loaded(None, true)
  {
    match w
    case BuiltinWallpaper(_) =>
      Loaded(if env.bundlePath.Some? then env.loadImage(env.bundlePath.value) else None, true)
    case ColorWallpaper(argb) => Loaded(env.colorImage(argb), true)
    case GradientWallpaper(_, colors, settings) => Loaded(env.gradientImage(colors, settings.rotation), true)
    case ImageWallpaper(representations, settings) =>
      (match env.largest(representations)
       case None => Loaded(None, true)
       case Some(largest) => LoadMedia(largest, settings.blur, env, composed))
    case FileWallpaper(_, _, _, _, isPattern, _, _, resource, settings) =>
      if isPattern then Loaded(None, true) else LoadMedia(resource, settings.blur, env, composed)
  }

  /** The resource whose blurred representation a media wallpaper may load. */
  function MediaResource(w: Wallpaper, env: Environment): Option<Resource>
  {
    match w
    case ImageWallpaper(representations, _) => env.largest(representations)
    case FileWallpaper(_, _, _, _, isPattern, _, _, resource, _) => if isPattern then None else Some(resource)
    case _ => None
  }

  /** The image and the new slot contents after one call. */
  datatype Call = Call(image: Option<Bitmap>, slot: Option<CacheEntry>)

  /**
    One call of the synchronous lookup: substitute, then either answer from
    the slot or load, and store the loaded image only when it exists, the
    request is composed and the load did not fall back to the raw file. The
    call returns what it stores, under the substituted wallpaper's key.
  */
  function BackgroundImageCall(slot: Option<CacheEntry>, theme: Option<Theme>, wallpaper: Wallpaper,
                               env: Environment, composed: bool, knockoutMode: bool, cached: bool): (r: Call)
    ensures var w := EffectiveWallpaper(theme, wallpaper, knockoutMode);
      r.slot != slot ==> composed && r.image.Some? && r.slot == Some(CacheEntry(w, BlurFlag(w), r.image.value))
  {
    var w := EffectiveWallpaper(theme, wallpaper, knockoutMode);
    if CacheHit(slot, w, cached, composed) then
      Call(Some(slot.value.image), slot)
    else
      var l := Load(w, env, composed);
      Call(l.image, if l.image.Some? && composed && l.succeed then Some(CacheEntry(w, BlurFlag(w), l.image.value)) else slot)
  }

  /**
    With a well-formed slot the blur comparison never decides anything: a
    cached, composed call hits exactly when the (substituted) wallpaper is
    the stored one.
  */
  lemma HitIsWallpaperEquality(slot: Option<CacheEntry>, w: Wallpaper, cached: bool, composed: bool)
    requires SlotValid(slot)
    ensures CacheHit(slot, w, cached, composed) <==> cached && composed && slot.Some? && slot.value.wallpaper == w
  {
  }

  /**
    A hit returns the stored image and changes nothing; a hit never consults
    the environment (any two environments give the same call).
  */
  lemma HitReturnsStoredImage(slot: Option<CacheEntry>, theme: Option<Theme>, wallpaper: Wallpaper,
                              env: Environment, env': Environment, composed: bool, knockoutMode: bool, cached: bool)
    requires CacheHit(slot, EffectiveWallpaper(theme, wallpaper, knockoutMode), cached, composed)
    ensures BackgroundImageCall(slot, theme, wallpaper, env, composed, knockoutMode, cached) == Call(Some(slot.value.image), slot)
    ensures BackgroundImageCall(slot, theme, wallpaper, env, composed, knockoutMode, cached)
      == BackgroundImageCall(slot, theme, wallpaper, env', composed, knockoutMode, cached)
  {
  }

  /**
    The slot changes only on a composed miss whose load produced an image
    without falling back, and it then holds exactly that image under the
    substituted wallpaper's key. A call that is not composed never writes.
  */
  lemma SlotWrittenOnlyForComposedNonFallback(slot: Option<CacheEntry>, theme: Option<Theme>, wallpaper: Wallpaper,
                                              env: Environment, composed: bool, knockoutMode: bool, cached: bool)
    ensures var r := BackgroundImageCall(slot, theme, wallpaper, env, composed, knockoutMode, cached);
      var w := EffectiveWallpaper(theme, wallpaper, knockoutMode);
      r.slot != slot ==>
        && composed
        && !CacheHit(slot, w, cached, composed)
        && Load(w, env, composed).succeed
        && r.image.Some?
        && r.slot == Some(CacheEntry(w, BlurFlag(w), r.image.value))
    ensures !composed ==> BackgroundImageCall(slot, theme, wallpaper, env, composed, knockoutMode, cached).slot == slot
  {
  }

  /** Every call keeps the slot well-formed. */
  lemma CallKeepsSlotValid(slot: Option<CacheEntry>, theme: Option<Theme>, wallpaper: Wallpaper,
                           env: Environment, composed: bool, knockoutMode: bool, cached: bool)
    requires SlotValid(slot)
    ensures SlotValid(BackgroundImageCall(slot, theme, wallpaper, env, composed, knockoutMode, cached).slot)
  {
  }

  /**
    Store then hit: once a cached, composed call has written the slot, the
    same request is answered from the slot with the same image, whatever the
    environment then says.
  */
  lemma WrittenSlotServesRepeat(slot: Option<CacheEntry>, theme: Option<Theme>, wallpaper: Wallpaper,
                                env: Environment, env': Environment, knockoutMode: bool)
    requires BackgroundImageCall(slot, theme, wallpaper, env, true, knockoutMode, true).slot != slot
    ensures var r := BackgroundImageCall(slot, theme, wallpaper, env, true, knockoutMode, true);
      BackgroundImageCall(r.slot, theme, wallpaper, env', true, knockoutMode, true) == r
  {
    SlotWrittenOnlyForComposedNonFallback(slot, theme, wallpaper, env, true, knockoutMode, true);
  }

  /**
    The blurred representation is consulted only when the wallpaper's blur
    setting is on and the request is composed: otherwise the load is the
    same whatever the blurred-representation answer is.
  */
  lemma BlurConsultedOnlyWhenBlurredAndComposed(w: Wallpaper, env: Environment, blurred': Resource -> Option<Bitmap>, composed: bool)
    requires !(BlurFlag(w) && composed)
    ensures Load(w, env, composed) == Load(w, env.(blurred := blurred'), composed)
  {
  }

  /**
    When blur is on, the request is composed and the blurred representation
    decodes, that image is the result and the load is not a fallback.
  */
  lemma BlurredRepresentationPreferred(w: Wallpaper, env: Environment)
    requires MediaResource(w, env).Some? && BlurFlag(w)
    requires env.blurred(MediaResource(w, env).value).Some?
    ensures Load(w, env, true) == Loaded(env.blurred(MediaResource(w, env).value), true)
  {
  }

  /**
    A load falls back exactly for a media wallpaper whose blurred image was
    not obtained (not asked for, or not there) while the raw file is
    complete; the fallback image is the decoded raw file.
  */
  lemma FallbackExactly(w: Wallpaper, env: Environment, composed: bool)
    ensures !Load(w, env, composed).succeed <==>
      && MediaResource(w, env).Some?
      && !(BlurFlag(w) && composed && env.blurred(MediaResource(w, env).value).Some?)
      && env.completedPath(MediaResource(w, env).value).Some?
    ensures !Load(w, env, composed).succeed ==>
      Load(w, env, composed).image == env.loadImage(env.completedPath(MediaResource(w, env).value).value)
  {
  }

  /** A pattern file never yields a background image, so a miss on it leaves the slot alone. */
  lemma PatternYieldsNoImage(slot: Option<CacheEntry>, theme: Option<Theme>, wallpaper: Wallpaper,
                             env: Environment, composed: bool, knockoutMode: bool, cached: bool)
    requires EffectiveWallpaper(theme, wallpaper, knockoutMode).FileWallpaper?
    requires EffectiveWallpaper(theme, wallpaper, knockoutMode).isPattern
    requires !CacheHit(slot, EffectiveWallpaper(theme, wallpaper, knockoutMode), cached, composed)
    ensures BackgroundImageCall(slot, theme, wallpaper, env, composed, knockoutMode, cached) == Call(None, slot)
  {
  }

  /**
    The load on a cache miss, by wallpaper kind; `succeed` turns false when
    a media wallpaper falls back to its raw completed file.
  */
  method LoadOnMiss(wallpaper: Wallpaper, env: Environment, composed: bool) returns (backgroundImage: Option<Bitmap>, succeed: bool)
    ensures Loaded(backgroundImage, succeed) == Load(wallpaper, env, composed)
  {
    backgroundImage := None;
    succeed := true;
    match wallpaper {
      case BuiltinWallpaper(_) =>
        if env.bundlePath.Some? {
          backgroundImage := env.loadImage(env.bundlePath.value);
        }
      case ColorWallpaper(argb) =>
        backgroundImage := env.colorImage(argb);
      case GradientWallpaper(_, colors, settings) =>
        backgroundImage := env.gradientImage(colors, settings.rotation);
      case ImageWallpaper(representations, settings) =>
        var largest := env.largest(representations);
        if largest.Some? {
          if settings.blur && composed {
            backgroundImage := env.blurred(largest.value);
          }
          var path := env.completedPath(largest.value);
          if backgroundImage.None? && path.Some? {
            succeed := false;
            backgroundImage := env.loadImage(path.value);
          }
        }
      case FileWallpaper(_, _, _, _, isPattern, _, _, resource, settings) =>
        if isPattern {
          backgroundImage := None;
        } else {
          if settings.blur && composed {
            backgroundImage := env.blurred(resource);
          }
          var path := env.completedPath(resource);
          if backgroundImage.None? && path.Some? {
            succeed := false;
            backgroundImage := env.loadImage(path.value);
          }
        }
    }
  }

  /** The process-wide slot `backgroundImageForWallpaper` of the synchronous lookup. */
  class BackgroundImageCache {
    var slot: Option<CacheEntry>

    ghost predicate Valid()
      reads this
    {
      SlotValid(slot)
    }

    constructor()
      ensures slot == None && Valid()
    {
      slot := None;
    }

    /**
      `chatControllerBackgroundImage`: substitutes the wallpaper in knockout
      mode, answers from the slot on a hit, otherwise loads by wallpaper kind,
      tracking whether the load fell back to the raw file, and writes the slot
      as `BackgroundImageCall` says.
    */
    method BackgroundImage(theme: Option<Theme>, initialWallpaper: Wallpaper, env: Environment,
                           composed: bool, knockoutMode: bool, cached: bool) returns (backgroundImage: Option<Bitmap>)
      requires Valid()
      modifies this
      ensures Valid()
      ensures var r := BackgroundImageCall(old(slot), theme, initialWallpaper, env, composed, knockoutMode, cached);
        backgroundImage == r.image && slot == r.slot
    {
      var wallpaper := initialWallpaper;
      if knockoutMode && theme.Some? {
        match theme.value.name {
          case BuiltinTheme(name) =>
            match name {
              case Day => wallpaper := theme.value.defaultWallpaper;
              case Night => wallpaper := theme.value.defaultWallpaper;
              case NightAccent => wallpaper := theme.value.defaultWallpaper;
              case DayClassic =>
            }
          case CustomTheme =>
        }
      }

      assert wallpaper == EffectiveWallpaper(theme, initialWallpaper, knockoutMode);
      backgroundImage := None;
      if cached && composed && slot.Some? && wallpaper == slot.value.wallpaper && BlurFlag(wallpaper) == slot.value.blur {
        backgroundImage := Some(slot.value.image);
      } else {
        var succeed;
        backgroundImage, succeed := LoadOnMiss(wallpaper, env, composed);
        if backgroundImage.Some? && composed && succeed {
          slot := Some(CacheEntry(wallpaper, BlurFlag(wallpaper), backgroundImage.value));
        }
      }
    }
  }

  // ---------------------------------------------------------------------------
  // The asynchronous variant
  // ---------------------------------------------------------------------------

  /**
    What the asynchronous lookup returns, as a plan: nothing at all
    (`.complete()`), one value `(image, isFinal)` (with `cachesImage` when
    the delivered image is written to the slot), a stream of the blurred
    representation of a resource (each complete image is delivered as final
    and cached), or a fetch from the account's media box that may first
    deliver a non-final thumbnail.
  */
  datatype SignalPlan =
    | Complete
    | Single(image: Option<Bitmap>, isFinal: bool, cachesImage: bool)
    | BlurredStream(resource: Resource)
    | AccountFetch(resource: Resource, blurred: bool)

  /** The asynchronous hit test: no `cached`/`composed` switches, same key. */
  predicate SignalCacheHit(slot: Option<CacheEntry>, w: Wallpaper)
  {
    slot.Some? && w == slot.value.wallpaper && BlurFlag(w) == slot.value.blur
  }

  /**
    `chatControllerBackgroundImageSignal`, branch by branch. Only a final
    value on a miss is cached, and every stream or fetch is of the
    wallpaper's own media resource.
  */
  function SignalImage(slot: Option<CacheEntry>, w: Wallpaper, env: Environment): (p: SignalPlan)
    ensures p.Single? && p.cachesImage ==> p.isFinal && !SignalCacheHit(slot, w)
    ensures p.BlurredStream? || p.AccountFetch? ==> MediaResource(w, env) == Some(p.resource)
  {
    if SignalCacheHit(slot, w) then
      Single(Some(slot.value.image), true, false)
    else
      match w
      case BuiltinWallpaper(_) =>
        if env.bundlePath.Some? then Single(env.loadImage(env.bundlePath.value), true, true) else Complete
      case ColorWallpaper(argb) => Single(env.colorImage(argb), true, true)
      case GradientWallpaper(_, colors, settings) => Single(env.gradientThumbnail(colors, settings.rotation), true, true)
      case ImageWallpaper(representations, settings) =>
        (match env.largest(representations)
         case None => Complete
         case Some(largest) =>
           if settings.blur then BlurredStream(largest)
           else if env.completedPath(largest).Some? then Single(env.loadImage(env.completedPath(largest).value), true, true)
           else Complete)
      case FileWallpaper(_, _, _, _, isPattern, _, _, resource, settings) =>
        if isPattern then Single(None, true, false)
        else if settings.blur then
          (if env.blurredOnDisk(resource) then BlurredStream(resource) else AccountFetch(resource, true))
        else if env.completedPath(resource).Some? then Single(env.loadImage(env.completedPath(resource).value), true, true)
        else if env.accountCompletedPath(resource).Some? then Single(env.loadImage(env.accountCompletedPath(resource).value), true, true)
        else AccountFetch(resource, false)
  }

  /** The slot after the main-queue write of a delivered image: only a real image is stored. */
  function CacheWallpaper(slot: Option<CacheEntry>, w: Wallpaper, image: Option<Bitmap>): (s: Option<CacheEntry>)
    ensures image.None? ==> s == slot
    ensures image.Some? ==> s.Some? && s.value.image == image.value && SignalCacheHit(s, w)
  {
    if image.Some? then Some(CacheEntry(w, BlurFlag(w), image.value)) else slot
  }

  /** A hit is answered at once with exactly the stored image, marked final, and writes nothing. */
  lemma SignalHitReturnsStored(slot: Option<CacheEntry>, w: Wallpaper, env: Environment)
    requires SignalCacheHit(slot, w)
    ensures SignalImage(slot, w, env) == Single(Some(slot.value.image), true, false)
  {
  }

  /** A pattern file on a miss is answered with no image, marked final, and is not cached. */
  lemma SignalPatternYieldsNothing(slot: Option<CacheEntry>, w: Wallpaper, env: Environment)
    requires w.FileWallpaper? && w.isPattern && !SignalCacheHit(slot, w)
    ensures SignalImage(slot, w, env) == Single(None, true, false)
  {
  }

  /**
    Store then hit: a delivered image that the plan caches makes the next
    request for the same wallpaper a hit returning that image, whatever the
    environment then says.
  */
  lemma SignalCachedImageServesRepeat(slot: Option<CacheEntry>, w: Wallpaper, env: Environment, env': Environment)
    requires SignalImage(slot, w, env).Single? && SignalImage(slot, w, env).cachesImage
    requires SignalImage(slot, w, env).image.Some?
    ensures var p := SignalImage(slot, w, env);
      SignalImage(CacheWallpaper(slot, w, p.image), w, env') == Single(p.image, true, false)
  {
  }

  /**
    Unlike the synchronous lookup, the asynchronous one caches the raw
    completed file of an unblurred media wallpaper: on the same miss where
    the synchronous load falls back and stores nothing, the asynchronous
    plan delivers the same image and stores it.
  */
  lemma SignalCachesWhatSyncTreatsAsFallback(w: Wallpaper, env: Environment, composed: bool)
    requires w.ImageWallpaper? && !w.settings.blur
    requires env.largest(w.representations).Some? && env.completedPath(env.largest(w.representations).value).Some?
    ensures !Load(w, env, composed).succeed
    ensures SignalImage(None, w, env) == Single(Load(w, env, composed).image, true, true)
  {
  }
}
