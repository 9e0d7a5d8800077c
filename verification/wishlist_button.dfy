/**
 * The featured-product wishlist button of the React app: the component state
 * (`db`, `userId`, `isWished`, `isLoading`, `error`), the Firestore snapshot listener,
 * and the toggle that can only ever mark the product as wished.
 */
module WishlistButton {
  import opened Wrappers
  import opened Backoff

  /** `ITEM_ID`, the one product this button tracks. */
  const ItemId: string := "homepage-featured-product-42"

  /** The value of the `wished` field of the stored document, as JSON gives it. */
  datatype Field = Missing | Null | Bool(b: bool) | Number(n: int) | Text(s: string) | Structured

  /** `!!value` for the field. A number is read here as an integer. */
  function Truthy(f: Field): bool {
    match f
    case Missing => false
    case Null => false
    case Bool(b) => b
    case Number(n) => n != 0
    case Text(s) => s != ""
    case Structured => true
  }

  /** A snapshot delivery: the document is absent, or present with its `wished` field. */
  datatype Snapshot = NoDocument | Document(wished: Field)

  /** The merge-write `toggleWishlist` hands to `setDoc`. The timestamp is left out. */
  datatype FlagWrite = FlagWrite(wished: bool, itemId: string)

  /** What the heart shows: the spinner while loading, else the filled or the outlined heart. */
  datatype Icon = Spinner | FilledHeart | OutlinedHeart

  const ConfigMissing: string := "Firebase configuration is missing."
  const InitFailed: string := "Failed to initialize the application."
  const LoadFailed: string := "Failed to load wishlist state."
  const SaveFailed: string := "Could not save the wishlist change."

  /**
   * How far the first effect gets: a throw while creating the app, Firestore or Auth
   * (before `setDb`), a throw while registering the auth listener (after it), or no throw.
   */
  datatype InitResult = SetupThrew | ListenerThrew | Initialized

  class Button {
    /** `db` is set (the Firestore handle exists). */
    var db: bool
    var userId: Option<string>
    var isWished: bool
    var isLoading: bool
    var error: Option<string>
    /** Every `setDoc` attempt made so far, in order. */
    var writes: seq<FlagWrite>

    /** Every write this component makes marks the product as wished. */
    predicate Valid()
      reads this
    {
      forall i :: 0 <= i < |writes| ==> writes[i] == FlagWrite(true, ItemId)
    }

    /** The initial `useState` values. */
    constructor()
      ensures Valid()
      ensures !db && userId == None && !isWished && isLoading && error == None && writes == []
    {
      db := false;
      userId := None;
      isWished := false;
      isLoading := true;
      error := None;
      writes := [];
    }

    /**
     * The first effect: an empty configuration sets the missing-configuration error and
     * leaves `db` as it was. A throw while creating the app, Firestore or Auth sets the
     * initialisation error before `db` is set; a throw while registering the auth listener
     * sets the same error after `db` is set. Otherwise `db` is set and the error kept.
     */
    method Initialize(configPresent: bool, init: InitResult)
      requires Valid()
      modifies this
      ensures Valid()
      ensures userId == old(userId) && isWished == old(isWished) && isLoading == old(isLoading)
      ensures writes == old(writes)
      ensures !configPresent ==> db == old(db) && error == Some(ConfigMissing)
      ensures configPresent && init == SetupThrew ==> db == old(db) && error == Some(InitFailed)
      ensures configPresent && init == ListenerThrew ==> db && error == Some(InitFailed)
      ensures configPresent && init == Initialized ==> db && error == old(error)
    {
      if !configPresent {
        error := Some(ConfigMissing);
        return;
      }
      if init == SetupThrew {
        error := Some(InitFailed);
        return;
      }
      db := true;
      if init == ListenerThrew {
        error := Some(InitFailed);
      }
    }

    /**
     * The auth listener: a signed-in user's uid becomes `userId`. With no user the app
     * starts a sign-in, whose success arrives later as another auth event, so nothing
     * changes now.
     */
    method OnAuthStateChanged(user: Option<string>)
      requires Valid()
      modifies this
      ensures Valid()
      ensures user.Some? ==> userId == user
      ensures user.None? ==> userId == old(userId)
      ensures db == old(db) && isWished == old(isWished) && isLoading == old(isLoading)
      ensures error == old(error) && writes == old(writes)
    {
      if user.Some? {
        userId := user;
      }
    }

    /** The listener is subscribed only once both `db` and `userId` are set. */
    predicate Listening()
      reads this
    {
      db && userId.Some?
    }

    /**
     * A snapshot delivery: the flag becomes `!!data.wished` for an existing document and
     * false for a missing one, and loading ends.
     */
    method OnSnapshot(snapshot: Snapshot)
      requires Valid()
      modifies this
      ensures Valid()
      ensures !old(Listening()) ==> isWished == old(isWished) && isLoading == old(isLoading)
      ensures old(Listening()) ==> !isLoading
      ensures old(Listening()) ==> isWished == (snapshot.Document? && Truthy(snapshot.wished))
      ensures db == old(db) && userId == old(userId) && error == old(error) && writes == old(writes)
    {
      if !Listening() {
        return;
      }
      match snapshot {
        case Document(wished) => isWished := Truthy(wished);
        case NoDocument => isWished := false;
      }
      isLoading := false;
    }

    /** The listener's error callback: the load error is shown and loading ends. */
    method OnSnapshotError()
      requires Valid()
      modifies this
      ensures Valid()
      ensures old(Listening()) ==> error == Some(LoadFailed) && !isLoading
      ensures !old(Listening()) ==> error == old(error) && isLoading == old(isLoading)
      ensures db == old(db) && userId == old(userId) && isWished == old(isWished) && writes == old(writes)
    {
      if Listening() {
        error := Some(LoadFailed);
        isLoading := false;
      }
    }

    /**
     * `toggleWishlist`: nothing happens without `db` and `userId`, or when the product is
     * already wished. Otherwise the wished document is written through
     * `exponentialBackoff`, where `attempt(k)` is the outcome of the k-th write; the flag
     * is set only after a write succeeds, and the save error is shown when all fail.
     */
    method Toggle(attempt: nat -> Outcome<(), string>)
      requires Valid()
      modifies this
      ensures Valid()
      ensures old(isWished) ==> isWished
      ensures !old(Listening()) || old(isWished) ==>
                isWished == old(isWished) && error == old(error) && writes == old(writes)
      ensures old(Listening()) && !old(isWished) ==>
                var run := ExponentialBackoff(attempt, 5, 0);
                writes == old(writes) + seq(run.calls, _ => FlagWrite(true, ItemId))
                && (run.result.Ok? ==> isWished && error == old(error))
                && (run.result.Fail? ==> !isWished && error == Some(SaveFailed))
      ensures db == old(db) && userId == old(userId) && isLoading == old(isLoading)
    {
      if !Listening() {
        return;
      }
      if isWished {
        return;
      }
      var run := ExponentialBackoff(attempt, 5, 0);
      writes := writes + seq(run.calls, _ => FlagWrite(true, ItemId));
      if run.result.Ok? {
        isWished := true;
      } else {
        error := Some(SaveFailed);
      }
    }

    /** `disabled={isLoading || error !== null}`. */
    predicate Disabled()
      reads this
    {
      isLoading || error.Some?
    }

    /**
     * A click runs `toggleWishlist` exactly while the button is enabled: a disabled button,
     * or an enabled one not yet listening or already wished, changes nothing; otherwise the
     * wished document is written through `exponentialBackoff` and the outcome decides
     * between the flag and the save error.
     */
    method Click(attempt: nat -> Outcome<(), string>)
      requires Valid()
      modifies this
      ensures Valid()
      ensures old(isWished) ==> isWished
      ensures old(Disabled()) ==>
                isWished == old(isWished) && error == old(error) && writes == old(writes)
      ensures !old(Disabled()) && (!old(Listening()) || old(isWished)) ==>
                isWished == old(isWished) && error == old(error) && writes == old(writes)
      ensures !old(Disabled()) && old(Listening()) && !old(isWished) ==>
                var run := ExponentialBackoff(attempt, 5, 0);
                writes == old(writes) + seq(run.calls, _ => FlagWrite(true, ItemId))
                && (run.result.Ok? ==> isWished && error == old(error))
                && (run.result.Fail? ==> !isWished && error == Some(SaveFailed))
      ensures db == old(db) && userId == old(userId) && isLoading == old(isLoading)
    {
      if Disabled() {
        return;
      }
      Toggle(attempt);
    }

    function Icon(): (icon: Icon)
      reads this
      ensures icon == Spinner <==> isLoading
      ensures icon == FilledHeart <==> !isLoading && isWished
    {
      if isLoading then Spinner else if isWished then FilledHeart else OutlinedHeart
    }
  }

  /**
   * A run of toggles never clears the flag: whatever the write outcomes, a wished
   * product stays wished after any number of clicks.
   */
  method ClickMany(b: Button, outcomes: seq<nat -> Outcome<(), string>>)
    requires b.Valid()
    modifies b
    ensures b.Valid()
    ensures old(b.isWished) ==> b.isWished
  {
    var i := 0;
    while i < |outcomes|
      invariant 0 <= i <= |outcomes|
      invariant b.Valid()
      invariant old(b.isWished) ==> b.isWished
    {
      b.Click(outcomes[i]);
      i := i + 1;
    }
  }

  /**
   * A toggle that runs writes at most six times (the first try and five retries), and
   * succeeds exactly when one of those writes does.
   */
  lemma ToggleWrites(attempt: nat -> Outcome<(), string>)
    ensures 1 <= ExponentialBackoff(attempt, 5, 0).calls <= 6
    ensures ExponentialBackoff(attempt, 5, 0).result.Ok? <==> exists k :: 0 <= k <= 5 && attempt(k).Ok?
  {
    RunSucceedsIff(attempt, 5, 0);
  }
}
