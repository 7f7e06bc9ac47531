/**
 * The users collection of utils/database.py and the rules its methods
 * enforce: the `id_card_number` uniqueness check on insert and update, the
 * "not found" answers, the partial update of the embedding and the image,
 * the duplicate-face scan used at registration, and the gallery projection
 * read by the recogniser.  The collection is an in-memory sequence of user
 * documents in the order a full `find({})` returns them.
 */
module Database {
  import opened Wrappers
  import opened PyValues
  import opened FaceProcessor

  /** A user document.  `embedding` is None when it has no `face_embedding` field. */
  datatype User = User(
    id: string,
    name: string,
    age: int,
    idCardNumber: string,
    nationality: string,
    profession: string,
    embedding: Option<Embedding>,
    imageBase64: Option<string>)

  /** What `check_face_exists` discloses about the matching user. */
  datatype DuplicateInfo = DuplicateInfo(id: string, name: string, similarity: real)

  /** The threshold the registration page passes to `check_face_exists`. */
  const RegistrationThreshold: real := 0.6

  predicate HasId(users: seq<User>, id: string) {
    exists i :: 0 <= i < |users| && users[i].id == id
  }

  predicate HasCard(users: seq<User>, card: string) {
    exists i :: 0 <= i < |users| && users[i].idCardNumber == card
  }

  /** A user other than `id` holds `card`: the `$ne` query of `update_user`. */
  predicate OtherHasCard(users: seq<User>, card: string, id: string) {
    exists i :: 0 <= i < |users| && users[i].idCardNumber == card && users[i].id != id
  }

  ghost predicate UniqueIds(users: seq<User>) {
    forall i, j :: 0 <= i < j < |users| ==> users[i].id != users[j].id
  }

  ghost predicate UniqueCards(users: seq<User>) {
    forall i, j :: 0 <= i < j < |users| ==> users[i].idCardNumber != users[j].idCardNumber
  }

  /** The position of the user with id `id`. */
  function IndexOfId(users: seq<User>, id: string): (r: Option<nat>)
    ensures r.Some? <==> HasId(users, id)
    ensures r.Some? ==> r.value < |users| && users[r.value].id == id
  {
    if users == [] then None
    else if users[0].id == id then Some(0)
    else
      match IndexOfId(users[1..], id)
      case None => None
      case Some(k) => Some(k + 1)
  }

  /** The `user_data` dict of `get_all_embeddings`. */
  function UserData(u: User): PyVal {
    PyDict([("name", PyStr(u.name)), ("id_card_number", PyStr(u.idCardNumber)),
            ("nationality", PyStr(u.nationality)), ("profession", PyStr(u.profession))])
  }

  /** The user after the `$set` of `update_user`. */
  function Updated(u: User, name: string, age: int, card: string, nationality: string, profession: string,
                   embedding: Option<Embedding>, image: Option<string>): User
  {
    User(u.id, name, age, card, nationality, profession,
         if embedding.Some? then embedding else u.embedding,
         if image.Some? then image else u.imageBase64)
  }

  // ---------------------------------------------------------------------------
  // get_all_embeddings
  // ---------------------------------------------------------------------------

  function Entry(u: User): GalleryEntry
    requires u.embedding.Some?
  {
    GalleryEntry(u.id, UserData(u), u.embedding.value)
  }

  /** The users that have an embedding, in collection order, as gallery entries. */
  function Gallery(users: seq<User>): seq<GalleryEntry> {
    if users == [] then []
    else (if users[0].embedding.Some? then [Entry(users[0])] else []) + Gallery(users[1..])
  }

  /** The gallery of a concatenation is the concatenation of the galleries: order is kept. */
  lemma {:induction false} GalleryAppend(a: seq<User>, b: seq<User>)
    ensures Gallery(a + b) == Gallery(a) + Gallery(b)
  {
    if a == [] {
      assert a + b == b;
    } else {
      var ab := a + b;
      assert ab[0] == a[0] && ab[1..] == a[1..] + b;
      var head := if a[0].embedding.Some? then [Entry(a[0])] else [];
      calc {
        Gallery(ab);
        head + Gallery(a[1..] + b);
        { GalleryAppend(a[1..], b); }
        head + (Gallery(a[1..]) + Gallery(b));
        (head + Gallery(a[1..])) + Gallery(b);
        Gallery(a) + Gallery(b);
      }
    }
  }

  /**
   * Every entry comes from a user with an embedding, and every user with an
   * embedding gives its entry: users without one are the only ones left out.
   */
  lemma {:induction false} GalleryMembers(users: seq<User>)
    ensures forall e :: e in Gallery(users) <==>
      exists i :: 0 <= i < |users| && users[i].embedding.Some? && e == Entry(users[i])
  {
    if users != [] {
      GalleryMembers(users[1..]);
      forall e
        ensures e in Gallery(users) <==>
          exists i :: 0 <= i < |users| && users[i].embedding.Some? && e == Entry(users[i])
      {
        if e in Gallery(users[1..]) {
          var i :| 0 <= i < |users[1..]| && users[1..][i].embedding.Some? && e == Entry(users[1..][i]);
          assert users[i + 1] == users[1..][i];
        }
        if exists i :: 0 <= i < |users| && users[i].embedding.Some? && e == Entry(users[i]) {
          var i :| 0 <= i < |users| && users[i].embedding.Some? && e == Entry(users[i]);
          if i > 0 {
            assert users[1..][i - 1] == users[i];
          }
        }
      }
    }
  }

  // ---------------------------------------------------------------------------
  // check_face_exists
  // ---------------------------------------------------------------------------

  /**
   * The verdict of `check_face_exists` on the users from the first one: the
   * first user with an embedding whose similarity is above the threshold,
   * or `(False, None)` at the end or when numpy raises on an embedding of
   * another dimension (the exception is caught).
   */
  function DuplicateScan(users: seq<User>, probe: Embedding, threshold: real,
                         cosine: (Embedding, Embedding) -> Score): (bool, Option<DuplicateInfo>)
  {
    if users == [] then (false, None)
    else
      var u := users[0];
      if u.embedding.None? then DuplicateScan(users[1..], probe, threshold, cosine)
      else if |u.embedding.value| != |probe| then (false, None)
      else
        var s := cosine(u.embedding.value, probe);
        if Exceeds(s, threshold) then (true, Some(DuplicateInfo(u.id, u.name, s.value)))
        else DuplicateScan(users[1..], probe, threshold, cosine)
  }

  /** `u` has an embedding of the probe's dimension whose similarity exceeds the threshold. */
  predicate IsDuplicateOf(u: User, probe: Embedding, threshold: real, cosine: (Embedding, Embedding) -> Score) {
    u.embedding.Some? && |u.embedding.value| == |probe| && Exceeds(cosine(u.embedding.value, probe), threshold)
  }

  /** The scan passes user `u` without stopping: no embedding, or same dimension and not above. */
  predicate PassesOver(u: User, probe: Embedding, threshold: real, cosine: (Embedding, Embedding) -> Score) {
    u.embedding.None? ||
    (|u.embedding.value| == |probe| && !Exceeds(cosine(u.embedding.value, probe), threshold))
  }

  /**
   * The scan reports user `k` exactly when `k` is a duplicate and every user
   * before it is passed over; it reports nothing otherwise.  The user found
   * is the first above the threshold, not necessarily the most similar one.
   */
  lemma {:induction false} DuplicateScanSpec(users: seq<User>, probe: Embedding, threshold: real,
                                             cosine: (Embedding, Embedding) -> Score)
    ensures var r := DuplicateScan(users, probe, threshold, cosine);
      && (r.0 <==> r.1.Some?)
      && (r.0 <==> exists k :: 0 <= k < |users| && IsDuplicateOf(users[k], probe, threshold, cosine)
                      && forall j :: 0 <= j < k ==> PassesOver(users[j], probe, threshold, cosine))
      && (forall k :: 0 <= k < |users| && IsDuplicateOf(users[k], probe, threshold, cosine)
                      && (forall j :: 0 <= j < k ==> PassesOver(users[j], probe, threshold, cosine)) ==>
            r.1 == Some(DuplicateInfo(users[k].id, users[k].name, cosine(users[k].embedding.value, probe).value)))
  {
    if users != [] {
      DuplicateScanSpec(users[1..], probe, threshold, cosine);
      var u := users[0];
      var r := DuplicateScan(users, probe, threshold, cosine);
      if PassesOver(u, probe, threshold, cosine) {
        assert r == DuplicateScan(users[1..], probe, threshold, cosine);
        if r.0 {
          var k :| 0 <= k < |users[1..]| && IsDuplicateOf(users[1..][k], probe, threshold, cosine)
                   && forall j :: 0 <= j < k ==> PassesOver(users[1..][j], probe, threshold, cosine);
          assert forall j :: 0 <= j < k + 1 ==> PassesOver(users[j], probe, threshold, cosine) by {
            forall j | 0 <= j < k + 1 ensures PassesOver(users[j], probe, threshold, cosine) {
              if j > 0 { assert users[j] == users[1..][j - 1]; }
            }
          }
          assert IsDuplicateOf(users[k + 1], probe, threshold, cosine);
        }
        forall k | 0 <= k < |users| && IsDuplicateOf(users[k], probe, threshold, cosine)
                   && (forall j :: 0 <= j < k ==> PassesOver(users[j], probe, threshold, cosine))
          ensures r.1 == Some(DuplicateInfo(users[k].id, users[k].name, cosine(users[k].embedding.value, probe).value))
        {
          assert k > 0;
          assert users[1..][k - 1] == users[k];
          assert forall j :: 0 <= j < k - 1 ==> PassesOver(users[1..][j], probe, threshold, cosine) by {
            forall j | 0 <= j < k - 1 ensures PassesOver(users[1..][j], probe, threshold, cosine) {
              assert users[1..][j] == users[j + 1];
            }
          }
        }
      } else if IsDuplicateOf(u, probe, threshold, cosine) {
        assert !PassesOver(users[0], probe, threshold, cosine);
      } else {
        forall k | 0 <= k < |users| && IsDuplicateOf(users[k], probe, threshold, cosine)
          ensures exists j :: 0 <= j < k && !PassesOver(users[j], probe, threshold, cosine)
        {
          assert k > 0 && !PassesOver(users[0], probe, threshold, cosine);
        }
      }
    }
  }

  /**
   * A probe that the registration guard flags (threshold 0.6) is recognized
   * by the InsightFace matcher (threshold 0.5) against the gallery of the
   * same users: some entry is eligible, and a detected face carrying that
   * probe comes out recognized without numpy raising, provided every stored
   * embedding has the probe's dimension and the similarity is symmetric, as
   * cosine similarity is.
   */
  lemma DuplicateIsRecognized(users: seq<User>, probe: Embedding, cosine: (Embedding, Embedding) -> Score,
                              img: Image, c: Candidate)
    requires forall a, b :: cosine(a, b) == cosine(b, a)
    requires forall i :: 0 <= i < |users| && users[i].embedding.Some? ==> |users[i].embedding.value| == |probe|
    requires DuplicateScan(users, probe, RegistrationThreshold, cosine).0
    requires WellFormed(img) && Inside(c.crop, |img.rows|, img.width) && c.probe == probe
    ensures HasEligible(Matcher(ModelThreshold, false, cosine), probe, Some(Gallery(users)))
    ensures var r := FaceResult(Matcher(ModelThreshold, false, cosine), img, c, Some(Gallery(users)));
      r.Success? && r.value.recognized
  {
    DuplicateScanSpec(users, probe, RegistrationThreshold, cosine);
    var k :| 0 <= k < |users| && IsDuplicateOf(users[k], probe, RegistrationThreshold, cosine)
             && forall j :: 0 <= j < k ==> PassesOver(users[j], probe, RegistrationThreshold, cosine);
    GalleryMembers(users);
    var e := Entry(users[k]);
    assert e in Gallery(users);
    var j :| 0 <= j < |Gallery(users)| && Gallery(users)[j] == e;
    assert Eligible(Matcher(ModelThreshold, false, cosine), probe, Gallery(users)[j]);
    forall j | 0 <= j < |Gallery(users)| ensures |Gallery(users)[j].embedding| == |probe| {
      assert Gallery(users)[j] in Gallery(users);
    }
    FaceResultSpec(Matcher(ModelThreshold, false, cosine), img, c, Some(Gallery(users)));
  }

  // ---------------------------------------------------------------------------
  // The users collection
  // ---------------------------------------------------------------------------

  class UserTable {
    /** The documents of the users collection, in `find({})` order. */
    var users: seq<User>

    /** Ids are unique, and the unique index on `id_card_number` holds. */
    ghost predicate Valid()
      reads this
    {
      UniqueIds(users) && UniqueCards(users)
    }

    /** Attaches to the users collection as stored: its documents already satisfy the indexes. */
    constructor (stored: seq<User>)
      requires UniqueIds(stored) && UniqueCards(stored)
      ensures Valid() && users == stored
    {
      users := stored;
    }

    /**
     * `add_user`: refused when a user already holds `id_card_number`,
     * otherwise appends one document under the id the driver assigns.
     */
    method AddUser(name: string, age: int, idCardNumber: string, nationality: string, profession: string,
                   embedding: Embedding, imageBase64: Option<string>, newId: string)
      returns (ok: bool, message: string, userId: Option<string>)
      requires Valid() && !HasId(users, newId)
      modifies this
      ensures Valid()
      ensures ok <==> !HasCard(old(users), idCardNumber)
      ensures ok ==> users == old(users) + [User(newId, name, age, idCardNumber, nationality, profession,
                                                 Some(embedding), imageBase64)]
                     && message == "User added successfully" && userId == Some(newId)
      ensures !ok ==> users == old(users) && userId == None
                      && message == "User with ID " + idCardNumber + " already exists"
    {
      if HasCard(users, idCardNumber) {
        return false, "User with ID " + idCardNumber + " already exists", None;
      }
      users := users + [User(newId, name, age, idCardNumber, nationality, profession, Some(embedding), imageBase64)];
      return true, "User added successfully", Some(newId);
    }

    /**
     * `update_user`: refused when another user holds `id_card_number`
     * (keeping one's own is allowed), "User not found" when no document has
     * `user_id`; otherwise the named fields are overwritten and the
     * embedding and image only when supplied.
     */
    method UpdateUser(userId: string, name: string, age: int, idCardNumber: string, nationality: string,
                      profession: string, embedding: Option<Embedding>, imageBase64: Option<string>)
      returns (ok: bool, message: string)
      requires Valid()
      modifies this
      ensures Valid()
      ensures OtherHasCard(old(users), idCardNumber, userId) ==>
                !ok && users == old(users)
                && message == "Another user with ID " + idCardNumber + " already exists"
      ensures !OtherHasCard(old(users), idCardNumber, userId) && !HasId(old(users), userId) ==>
                !ok && users == old(users) && message == "User not found"
      ensures ok <==> !OtherHasCard(old(users), idCardNumber, userId) && HasId(old(users), userId)
      ensures ok ==>
                var i := IndexOfId(old(users), userId).value;
                users == old(users)[i := Updated(old(users)[i], name, age, idCardNumber, nationality,
                                                 profession, embedding, imageBase64)]
                && message == "User updated successfully"
    {
      if OtherHasCard(users, idCardNumber, userId) {
        return false, "Another user with ID " + idCardNumber + " already exists";
      }
      var index := IndexOfId(users, userId);
      if index.None? {
        return false, "User not found";
      }
      var i := index.value;
      users := users[i := Updated(users[i], name, age, idCardNumber, nationality, profession,
                                  embedding, imageBase64)];
      return true, "User updated successfully";
    }

    /** `delete_user`: "not found" for an unknown id, otherwise removes exactly that document. */
    method DeleteUser(userId: string) returns (ok: bool, message: string)
      requires Valid()
      modifies this
      ensures Valid()
      ensures ok <==> HasId(old(users), userId)
      ensures !ok ==> users == old(users) && message == "User with ID " + userId + " not found"
      ensures ok ==>
                var i := IndexOfId(old(users), userId).value;
                users == old(users)[..i] + old(users)[i + 1..] && message == "User deleted successfully"
      ensures !HasId(users, userId)
    {
      var index := IndexOfId(users, userId);
      if index.None? {
        return false, "User with ID " + userId + " not found";
      }
      var i := index.value;
      users := users[..i] + users[i + 1..];
      return true, "User deleted successfully";
    }

    /** `get_all_embeddings`: one entry per user that has an embedding, in collection order. */
    method GetAllEmbeddings() returns (embeddings: seq<GalleryEntry>)
      ensures embeddings == Gallery(users)
    {
      embeddings := [];
      var i := 0;
      while i < |users|
        invariant i <= |users|
        invariant embeddings == Gallery(users[..i])
      {
        var user := users[i];
        if user.embedding.Some? {
          embeddings := embeddings + [GalleryEntry(user.id, UserData(user), user.embedding.value)];
        }
        assert users[..i + 1] == users[..i] + [user];
        GalleryAppend(users[..i], [user]);
        i := i + 1;
      }
      assert users[..i] == users;
    }

    /**
     * `check_face_exists`: walks the users in order and returns at the first
     * one whose similarity with the probe is above the threshold.
     */
    method CheckFaceExists(probe: Embedding, threshold: real, cosine: (Embedding, Embedding) -> Score)
      returns (found: bool, info: Option<DuplicateInfo>)
      ensures (found, info) == DuplicateScan(users, probe, threshold, cosine)
    {
      var i := 0;
      while i < |users|
        invariant i <= |users|
        invariant DuplicateScan(users[i..], probe, threshold, cosine) == DuplicateScan(users, probe, threshold, cosine)
      {
        var user := users[i];
        assert users[i..][1..] == users[i + 1..];
        if user.embedding.Some? {
          var existing := user.embedding.value;
          if |existing| != |probe| {
            return false, None;
          }
          var similarity := cosine(existing, probe);
          if similarity.Num? && similarity.value > threshold {
            return true, Some(DuplicateInfo(user.id, user.name, similarity.value));
          }
        }
        i := i + 1;
      }
      return false, None;
    }
  }
}
