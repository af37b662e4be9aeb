/**
 * The upload-URL handler (`src/backend/api/media_create_url.ts`): the file
 * type whitelist, the random file name and the storage key. Token
 * verification is a parameter giving the user id (`None` when it throws),
 * the 16 random bytes are a parameter, and the presigned URL itself is left
 * to the storage client; the model keeps its lifetime.
 */
module MediaCreateUrl {
  import opened Wrappers
  import opened Text
  import opened BearerAuth

  const AllowedTypes: seq<string> := ["image/jpeg", "image/png", "image/gif"]

  /** `expiresIn` of the presigned URL, in seconds. */
  const UrlLifetime := 3600

  datatype Response =
    | Unauthorized401
    | InvalidFileType400
    | Failed500
    | Upload(key: string, filename: string, expiresIn: int)

  /** `fileType.split('/')[1]`. */
  function Extension(fileType: string): string
  {
    var parts := Split(fileType, '/');
    if |parts| >= 2 then parts[1] else ""
  }

  /** The extension is what follows the '/'. */
  lemma ExtensionOf(kind: string, sub: string)
    requires '/' !in kind && '/' !in sub
    ensures Extension(kind + "/" + sub) == sub
  {
    assert kind + "/" + sub == kind + ['/'] + sub;
    SplitAfterPiece(kind, sub, '/');
    SplitNoSep(sub, '/');
  }

  /** The three accepted types give the extensions "jpeg", "png" and "gif". */
  lemma AllowedExtensions(fileType: string)
    requires fileType in AllowedTypes
    ensures Extension(fileType) in ["jpeg", "png", "gif"]
  {
    var sub := if fileType == AllowedTypes[0] then "jpeg" else if fileType == AllowedTypes[1] then "png" else "gif";
    assert fileType == "image" + "/" + sub;
    assert '/' !in "image" && '/' !in sub;
    ExtensionOf("image", sub);
  }

  predicate IsHexDigit(c: char)
  {
    '0' <= c <= '9' || 'a' <= c <= 'f'
  }

  /** `Buffer.toString('hex')`: two lower-case hex digits per byte. */
  function HexString(bytes: seq<int>): (r: string)
    requires forall i :: 0 <= i < |bytes| ==> 0 <= bytes[i] < 256
    ensures |r| == 2 * |bytes|
    ensures forall i :: 0 <= i < |r| ==> IsHexDigit(r[i])
  {
    if bytes == [] then []
    else
      var head := HexByte(bytes[0]);
      assert IsHexDigit(head[0]) && IsHexDigit(head[1]);
      head + HexString(bytes[1..])
  }

  /** `${hex}.${extension}`. */
  function Filename(random: seq<int>, extension: string): (name: string)
    requires |random| == 16 && forall i :: 0 <= i < 16 ==> 0 <= random[i] < 256
    ensures |name| == 33 + |extension|
    ensures forall i :: 0 <= i < 32 ==> IsHexDigit(name[i])
    ensures name[32] == '.' && name[33..] == extension
  {
    HexString(random) + "." + extension
  }

  /** `uploads/${user_id}/${filename}`. */
  function Key(userId: string, filename: string): string
  {
    "uploads/" + userId + "/" + filename
  }

  /**
   * The handler as intended: 401 unless the header starts "Bearer "; 500
   * when the token does not verify; 400 for a type outside the whitelist;
   * otherwise the key and file name of a fresh upload.
   */
  function CreateUploadUrl(authHeader: Option<string>, verify: string -> Option<string>,
                           fileType: string, random: seq<int>): (r: Response)
    requires |random| == 16 && forall i :: 0 <= i < 16 ==> 0 <= random[i] < 256
    ensures !HasBearer(authHeader) <==> r == Unauthorized401
    ensures r == InvalidFileType400 ==> fileType !in AllowedTypes
    ensures r.Upload? ==> fileType in AllowedTypes && r.expiresIn == UrlLifetime
    ensures HasBearer(authHeader) && verify(BearerToken(authHeader.value)).None? ==> r == Failed500
    ensures HasBearer(authHeader) && verify(BearerToken(authHeader.value)).Some? && fileType !in AllowedTypes ==>
      r == InvalidFileType400
    ensures r.Upload? <==> HasBearer(authHeader) && verify(BearerToken(authHeader.value)).Some? && fileType in AllowedTypes
    ensures r.Upload? ==>
      r.key == Key(verify(BearerToken(authHeader.value)).value, r.filename)
      && r.filename == Filename(random, Extension(fileType))
  {
    if !HasBearer(authHeader) then Unauthorized401
    else
      var user := verify(BearerToken(authHeader.value));
      if user.None? then Failed500
      else if fileType !in AllowedTypes then InvalidFileType400
      else
        var filename := Filename(random, Extension(fileType));
        Upload(Key(user.value, filename), filename, UrlLifetime)
  }

  /**
   * The handler as written: `jwt` is never imported, so reading `jwt.verify`
   * throws inside the try block, and every request that passes the header
   * check ends in the catch-all 500.
   */
  function CreateUploadUrlAsWritten(authHeader: Option<string>, fileType: string): (r: Response)
    ensures r == Unauthorized401 || r == Failed500
  {
    if !HasBearer(authHeader) then Unauthorized401
    else Failed500
  }

  /** A signed-in user uploading a PNG gets no upload URL as written, but gets one as intended. */
  lemma MissingImportRejectsUpload(random: seq<int>)
    requires |random| == 16 && forall i :: 0 <= i < 16 ==> 0 <= random[i] < 256
    ensures CreateUploadUrlAsWritten(Some("Bearer t"), "image/png") == Failed500
    ensures CreateUploadUrl(Some("Bearer t"), (tok: string) => Some("u1"), "image/png", random).Upload?
  {
    BearerTokenOf("t");
    assert "image/png" in AllowedTypes by {
      assert AllowedTypes[1] == "image/png";
    }
  }

  /** As intended, an accepted type yields a key under the user's folder ending in a 32-hex-digit name and the type's extension. */
  lemma UploadKeyShape(token: string, user: string, fileType: string, random: seq<int>, verify: string -> Option<string>)
    requires |random| == 16 && forall i :: 0 <= i < 16 ==> 0 <= random[i] < 256
    requires ' ' !in token && verify(token) == Some(user) && fileType in AllowedTypes
    ensures var r := CreateUploadUrl(Some("Bearer " + token), verify, fileType, random);
      r.Upload? && r.key == "uploads/" + user + "/" + r.filename
      && |r.filename| >= 33 && r.filename[32] == '.'
      && r.filename[33..] in ["jpeg", "png", "gif"]
  {
    BearerTokenOf(token);
    AllowedExtensions(fileType);
  }
}
