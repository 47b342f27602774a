/** The `Usuario` collection as the routes use it: a table of records keyed by
    identifier in which no two records share an address and every record has
    passed the schema's validators, together with the instance methods
    `incLoginAttempts` and `resetLoginAttempts` of backend/models/Usuario.js
    that change one record in place. */
module UsuarioStore {
  import opened Common
  import opened UsuarioModel

  /** What a route handler answers, and the table it leaves behind. */
  datatype Outcome<R> = Outcome(reply: R, accounts: map<UserId, Usuario>)

  /** The unique index on `Correo`. */
  predicate EmailsUnique(accounts: map<UserId, Usuario>)
  {
    forall i, j :: i in accounts && j in accounts && accounts[i].Correo == accounts[j].Correo ==> i == j
  }

  predicate AllSchemaValid(accounts: map<UserId, Usuario>)
  {
    forall i :: i in accounts ==> SchemaValid(accounts[i])
  }

  predicate HasEmail(accounts: map<UserId, Usuario>, id: UserId, correo: string)
  {
    id in accounts && accounts[id].Correo == correo
  }

  /** `findOne({ Correo })`: the record with that address, if any. */
  ghost function ByEmail(accounts: map<UserId, Usuario>, correo: string): (r: Option<UserId>)
    ensures r.Some? ==> HasEmail(accounts, r.value, correo)
    ensures r.None? ==> forall id :: !HasEmail(accounts, id, correo)
  {
    if exists id :: HasEmail(accounts, id, correo) then
      var id :| HasEmail(accounts, id, correo); Some(id)
    else None
  }

  /** With unique addresses the lookup is determined: it finds the one record
      holding the address. */
  lemma ByEmailFindsOwner(accounts: map<UserId, Usuario>, id: UserId)
    requires EmailsUnique(accounts) && id in accounts
    ensures ByEmail(accounts, accounts[id].Correo) == Some(id)
  {
    assert HasEmail(accounts, id, accounts[id].Correo);
  }

  /** The table after `save()` of one changed record: the schema still holds and
      the address is the stored one, so the unique index is not disturbed. */
  predicate SaveAllowed(accounts: map<UserId, Usuario>, id: UserId, u: Usuario)
  {
    id in accounts && SchemaValid(u) && u.Correo == accounts[id].Correo
  }

  lemma SavePreservesIndex(accounts: map<UserId, Usuario>, id: UserId, u: Usuario)
    requires EmailsUnique(accounts) && AllSchemaValid(accounts) && SaveAllowed(accounts, id, u)
    ensures EmailsUnique(accounts[id := u]) && AllSchemaValid(accounts[id := u])
  {
  }

  /** Inserting a valid record under an unused identifier, when no record
      holds its address, keeps the unique index and the schema. */
  lemma InsertPreservesIndex(accounts: map<UserId, Usuario>, id: UserId, u: Usuario)
    requires EmailsUnique(accounts) && AllSchemaValid(accounts) && id !in accounts
    requires SchemaValid(u) && ByEmail(accounts, u.Correo).None?
    ensures EmailsUnique(accounts[id := u]) && AllSchemaValid(accounts[id := u])
  {
    assert forall i :: i in accounts ==> !HasEmail(accounts, i, u.Correo);
  }

  class Store {
    var accounts: map<UserId, Usuario>
    /** The identifier the next inserted record receives. */
    var nextId: UserId

    ghost predicate Valid()
      reads this
    {
      && (forall id :: id in accounts ==> id < nextId)
      && EmailsUnique(accounts)
      && AllSchemaValid(accounts)
    }

    constructor ()
      ensures Valid() && accounts == map[]
    {
      accounts := map[];
      nextId := 0;
    }

    /** `Usuario.findOne({ Correo: correo })`. */
    method FindByEmail(correo: string) returns (r: Option<UserId>)
      requires Valid()
      ensures r == ByEmail(accounts, correo)
    {
      if exists id :: id in accounts && accounts[id].Correo == correo {
        var id :| id in accounts && accounts[id].Correo == correo;
        ByEmailFindsOwner(accounts, id);
        r := Some(id);
      } else {
        r := None;
      }
    }

    /** `Usuario.findOne({ VerificacionCodigo: code })`: some record holding
        that code, or none when no record holds it. */
    method FindByVerificationCode(code: string) returns (r: Option<UserId>)
      ensures r.Some? ==> r.value in accounts && accounts[r.value].VerificacionCodigo == Some(code)
      ensures r.None? ==> forall id :: id in accounts ==> accounts[id].VerificacionCodigo != Some(code)
    {
      if exists id :: id in accounts && accounts[id].VerificacionCodigo == Some(code) {
        var id :| id in accounts && accounts[id].VerificacionCodigo == Some(code);
        r := Some(id);
      } else {
        r := None;
      }
    }

    /** `new Usuario(u).save()`: refused when a validator fails or the address
        is taken, otherwise inserted under a fresh identifier. */
    method Create(u: Usuario) returns (r: Option<UserId>)
      requires Valid()
      modifies this
      ensures Valid()
      ensures r.Some? <==> SchemaValid(u) && ByEmail(old(accounts), u.Correo).None?
      ensures r.Some? ==> r.value == old(nextId) && r.value !in old(accounts) && accounts == old(accounts)[r.value := u]
      ensures r.None? ==> accounts == old(accounts)
    {
      var taken := FindByEmail(u.Correo);
      if !SchemaValid(u) || taken.Some? {
        return None;
      }
      InsertPreservesIndex(accounts, nextId, u);
      r := Some(nextId);
      accounts := accounts[nextId := u];
      nextId := nextId + 1;
    }

    /** `save()` of a changed record that keeps its address and its validity. */
    method Save(id: UserId, u: Usuario)
      requires Valid() && SaveAllowed(accounts, id, u)
      modifies this
      ensures Valid() && nextId == old(nextId)
      ensures accounts == old(accounts)[id := u]
    {
      SavePreservesIndex(accounts, id, u);
      accounts := accounts[id := u];
    }

    /** `usuario.incLoginAttempts()` at time `now`. */
    method IncLoginAttempts(id: UserId, now: int)
      requires Valid() && id in accounts
      modifies this
      ensures Valid() && nextId == old(nextId)
      ensures accounts == old(accounts)[id := FailedAttempt(old(accounts)[id], now)]
    {
      var u := accounts[id];
      if u.lockUntil.Some? && u.lockUntil.value < now {
        u := u.(failedAttempts := 1, lockUntil := None);
        Save(id, u);
        return;
      }
      u := u.(failedAttempts := u.failedAttempts + 1);
      if u.failedAttempts >= MAX_FAILED_ATTEMPTS && (u.lockUntil.None? || u.lockUntil.value < now) {
        u := u.(lockUntil := Some(now + LOCK_MS));
      }
      Save(id, u);
    }

    /** `usuario.resetLoginAttempts()`. */
    method ResetLoginAttempts(id: UserId)
      requires Valid() && id in accounts
      modifies this
      ensures Valid() && nextId == old(nextId)
      ensures accounts == old(accounts)[id := Cleared(old(accounts)[id])]
    {
      Save(id, accounts[id].(failedAttempts := 0, lockUntil := None));
    }
  }
}
