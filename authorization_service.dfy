/**
  The anonymous-access check: a memoryland may be viewed with a token
  exactly when the token is registered for that memoryland.
*/
module AuthorizationService {
  import opened Strings
  import opened Entities

  /** Some stored token carries this Guid and belongs to this memoryland. */
  predicate TokenFor(tokens: seq<MemorylandToken>, memorylandId: Long, memorylandToken: Guid) {
    exists j :: 0 <= j < |tokens| && tokens[j].token == memorylandToken && tokens[j].memorylandId == memorylandId
  }

  /**
    IsAuthorized: false when no memoryland has the id; otherwise whether a
    token with both the given Guid and the given memoryland id is stored.
    A read-only query.
  */
  function IsAuthorized(db: Database, memorylandId: Long, memorylandToken: Guid): (b: bool)
    reads db
    ensures !HasMemoryland(db.memorylands, memorylandId) ==> !b
    ensures HasMemoryland(db.memorylands, memorylandId) ==> (b <==> TokenFor(db.memorylandTokens, memorylandId, memorylandToken))
  {
    if !(exists j :: 0 <= j < |db.memorylands| && db.memorylands[j].id == memorylandId) then false
    else exists j :: 0 <= j < |db.memorylandTokens| && db.memorylandTokens[j].token == memorylandToken
                     && db.memorylandTokens[j].memorylandId == memorylandId
  }

  /**
    With the foreign key of the tokens in place, the memoryland lookup never
    changes the answer: authorized exactly when the token is registered for
    that memoryland.
  */
  lemma AuthorizedIffTokenRegistered(db: Database, memorylandId: Long, memorylandToken: Guid)
    requires db.Valid()
    ensures IsAuthorized(db, memorylandId, memorylandToken) <==> TokenFor(db.memorylandTokens, memorylandId, memorylandToken)
  {
    if TokenFor(db.memorylandTokens, memorylandId, memorylandToken) {
      var j :| 0 <= j < |db.memorylandTokens| && db.memorylandTokens[j].token == memorylandToken
               && db.memorylandTokens[j].memorylandId == memorylandId;
      assert HasMemoryland(db.memorylands, db.memorylandTokens[j].memorylandId);
    }
  }

  /**
    A token registered for one memoryland does not open another: the unique
    index on Token leaves no second row with the same Guid.
  */
  lemma ForeignTokenDoesNotAuthorize(db: Database, j: nat, otherId: Long)
    requires db.Valid()
    requires j < |db.memorylandTokens| && db.memorylandTokens[j].memorylandId != otherId
    ensures !IsAuthorized(db, otherId, db.memorylandTokens[j].token)
  {
  }

  /** A Guid opens at most one memoryland. */
  lemma AuthorizesAtMostOne(db: Database, first: Long, second: Long, memorylandToken: Guid)
    requires db.Valid()
    requires IsAuthorized(db, first, memorylandToken) && IsAuthorized(db, second, memorylandToken)
    ensures first == second
  {
    var j :| 0 <= j < |db.memorylandTokens| && db.memorylandTokens[j].token == memorylandToken
             && db.memorylandTokens[j].memorylandId == first;
    var k :| 0 <= k < |db.memorylandTokens| && db.memorylandTokens[k].token == memorylandToken
             && db.memorylandTokens[k].memorylandId == second;
    assert j == k;
  }

  /** Every registered token opens its own memoryland. */
  lemma RegisteredTokenAuthorizes(db: Database, j: nat)
    requires db.Valid()
    requires j < |db.memorylandTokens|
    ensures IsAuthorized(db, db.memorylandTokens[j].memorylandId, db.memorylandTokens[j].token)
  {
    assert HasMemoryland(db.memorylands, db.memorylandTokens[j].memorylandId);
  }
}
