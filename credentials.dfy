/**
 * The stored Skolplattformen credentials of a user (`skool::credentials`):
 * the public view that hides the password, the shaping of the database row
 * into credentials, and the request extractor that demands them.
 *
 * The database query and the decryption of the stored secret are foreign
 * calls: the query's outcome and the decryption are inputs.
 */
module StoredCredentials {
  import opened Wrappers
  import AppErrors

  type Byte = x: int | 0 <= x < 256

  /** A school's 32-byte BLAKE3 hash. */
  type SchoolHash = s: seq<Byte> | |s| == 32 witness seq(32, _ => 0)

  datatype Private = Skolplattformen(username: string, password: string)

  datatype Public = Skolplattformen(username: string)

  datatype Credentials = Credentials(updatedAt: int, schoolClass: Option<string>, school: Option<SchoolHash>, private: Private)

  datatype PublicCredentials = PublicCredentials(updatedAt: int, schoolClass: Option<string>, school: Option<SchoolHash>, public: Public)

  /** `From<Private> for Public`. */
  function ToPublic(p: Private): Public
  {
    Public.Skolplattformen(p.username)
  }

  /** `From<Credentials> for PublicCredentials`. */
  function ToPublicCredentials(c: Credentials): PublicCredentials
  {
    PublicCredentials(c.updatedAt, c.schoolClass, c.school, ToPublic(c.private))
  }

  /**
   * The public view copies the time, class, school and username unchanged and
   * keeps nothing of the password: two credentials look the same exactly when
   * they differ in the password alone.
   */
  lemma PublicHidesPassword(a: Credentials, b: Credentials)
    ensures ToPublicCredentials(a).updatedAt == a.updatedAt && ToPublicCredentials(a).schoolClass == a.schoolClass
      && ToPublicCredentials(a).school == a.school
    ensures ToPublicCredentials(a) == ToPublicCredentials(b) <==>
      a.updatedAt == b.updatedAt && a.schoolClass == b.schoolClass && a.school == b.school
      && a.private.username == b.private.username
    ensures ToPublicCredentials(a).public.username == a.private.username
  {
  }

  /** A row of the `credentials` table. */
  datatype Row = Row(updatedAt: int, data: seq<Byte>, school: Option<seq<Byte>>, classReference: Option<string>)

  /** The query's outcome: it failed, or it found at most one row. */
  datatype Query = Failed(message: string) | Found(row: Option<Row>)

  /** The stored school bytes as a hash, when there are exactly 32 of them. */
  function SchoolOf(v: Option<seq<Byte>>): (r: Option<SchoolHash>)
  {
    if v.Some? && |v.value| == 32 then Some(v.value) else None
  }

  /** `get`: a failed query is an error; a missing row, or a secret that does not decrypt, is no credentials. */
  function Get(query: Query, decrypt: seq<Byte> -> Option<Private>): Result<Option<Credentials>, AppErrors.AppError>
  {
    match query
    case Failed(m) => Err(AppErrors.FromForeign(AppErrors.Sqlx(m)))
    case Found(None) => Ok(None)
    case Found(Some(row)) =>
      var private := decrypt(row.data);
      if private.None? then Ok(None)
      else Ok(Some(Credentials(row.updatedAt, row.classReference, SchoolOf(row.school), private.value)))
  }

  /**
   * Credentials come back exactly when there is a row whose secret decrypts;
   * they carry the row's time and class, the decrypted secret, and the school
   * only when exactly 32 bytes were stored. Only a failed query is an error.
   */
  lemma GetSpec(query: Query, decrypt: seq<Byte> -> Option<Private>)
    ensures Get(query, decrypt).Err? <==> query.Failed?
    ensures Get(query, decrypt).Err? ==> AppErrors.StatusCode(Get(query, decrypt).error) == 500
    ensures (Get(query, decrypt).Ok? && Get(query, decrypt).value.Some?) <==>
      query.Found? && query.row.Some? && decrypt(query.row.value.data).Some?
    ensures Get(query, decrypt).Ok? && Get(query, decrypt).value.Some? ==>
      var row, c := query.row.value, Get(query, decrypt).value.value;
      c.updatedAt == row.updatedAt && c.schoolClass == row.classReference
      && Some(c.private) == decrypt(row.data)
      && (c.school.Some? <==> row.school.Some? && |row.school.value| == 32)
      && (c.school.Some? ==> c.school.value == row.school.value)
  {
  }

  /**
   * The request extractor: the caller's identity (or the authentication
   * library's error), then `get` for that user; no credentials is an error.
   */
  function Extract(identity: Result<string, AppErrors.FromRequestError>,
                   get: string -> Result<Option<Credentials>, AppErrors.AppError>): Result<Credentials, AppErrors.AppError>
  {
    if identity.Err? then Err(AppErrors.Auth(identity.error))
    else
      var found := get(identity.value);
      if found.Err? then Err(found.error)
      else if found.value.None? then Err(AppErrors.MissingCredentials)
      else Ok(found.value.value)
  }

  /** A known user without usable credentials is answered 401; with them, the request gets them. */
  lemma ExtractSpec(identity: Result<string, AppErrors.FromRequestError>,
                    get: string -> Result<Option<Credentials>, AppErrors.AppError>)
    ensures Extract(identity, get).Ok? <==> identity.Ok? && get(identity.value).Ok? && get(identity.value).value.Some?
    ensures Extract(identity, get).Ok? ==> Extract(identity, get).value == get(identity.value).value.value
    ensures identity.Ok? && get(identity.value) == Ok(None) ==>
      Extract(identity, get) == Err(AppErrors.MissingCredentials)
      && AppErrors.StatusCode(Extract(identity, get).error) == 401
  {
  }
}
