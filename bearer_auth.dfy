/**
 * The Authorization-header convention shared by the worker handlers
 * (`src/backend/api/flags.ts`, `src/backend/api/media_create_url.ts`): the
 * header must start "Bearer ", and the token is its second ' '-separated
 * piece.
 */
module BearerAuth {
  import opened Wrappers
  import opened Text

  /** `authHeader?.startsWith('Bearer ')`. */
  predicate HasBearer(authHeader: Option<string>)
  {
    authHeader.Some? && StartsWith(authHeader.value, "Bearer ")
  }

  /** `authHeader.split(' ')[1]`; `""` stands for a missing piece. */
  function BearerToken(authHeader: string): string
  {
    var parts := Split(authHeader, ' ');
    if |parts| >= 2 then parts[1] else ""
  }

  /** A header "Bearer " + token hands the verifier the token, when it has no space of its own. */
  lemma BearerTokenOf(token: string)
    requires ' ' !in token
    ensures HasBearer(Some("Bearer " + token))
    ensures BearerToken("Bearer " + token) == token
  {
    assert ("Bearer " + token)[..7] == "Bearer ";
    assert "Bearer " + token == "Bearer" + [' '] + token;
    SplitAfterPiece("Bearer", token, ' ');
    SplitNoSep(token, ' ');
  }
}
