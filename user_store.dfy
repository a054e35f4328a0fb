/**
 * UserRepositoryImpl: the in-memory user table, a map from id to user with a counter
 * that hands out ids 1, 2, 3, ... Emails are kept unique by scanning the table before
 * every save and every email change.
 */
module UserStore {
  import opened Common
  import opened Domain
  import opened Updates

  /** Whether a user other than `userId` (any user, when there is none) has `email`. */
  ghost predicate EmailTaken(users: map<int, User>, email: string, userId: Option<int>) {
    exists k :: k in users && users[k].email == email && Some(k) != userId
  }

  /** With unique emails, a user's own email is never taken by somebody else. */
  lemma OwnEmailNotTaken(users: map<int, User>, userId: int)
    requires EmailsUnique(users) && userId in users
    ensures !EmailTaken(users, users[userId].email, Some(userId))
  {
  }

  class UserRepository {
    var users: map<int, User>
    var generatedId: int

    /** Every id was handed out by the counter, and no two users share an email. */
    ghost predicate Valid()
      reads this
    {
      && 0 <= generatedId
      && (forall id :: id in users ==> 1 <= id <= generatedId)
      && EmailsUnique(users)
    }

    constructor ()
      ensures Valid() && users == map[] && generatedId == 0
    {
      users := map[];
      generatedId := 0;
    }

    /** `generateId`: advances the counter and returns its new value. */
    method GenerateId() returns (id: int)
      modifies this
      ensures generatedId == old(generatedId) + 1 && id == generatedId
      ensures users == old(users)
    {
      generatedId := generatedId + 1;
      id := generatedId;
    }

    /**
     * `checkEmail`: scans the stored users and fails on the first one other than `userId`
     * that has `email`.
     */
    method CheckEmail(email: string, userId: Option<int>) returns (ok: bool)
      ensures ok <==> !EmailTaken(users, email, userId)
    {
      var unchecked := users.Keys;
      while unchecked != {}
        invariant unchecked <= users.Keys
        invariant forall k :: k in users && k !in unchecked ==> !(users[k].email == email && Some(k) != userId)
        decreases |unchecked|
      {
        assert (forall k :: k !in unchecked) ==> unchecked == {};
        var k :| k in unchecked;
        if users[k].email == email && Some(k) != userId {
          return false;
        }
        unchecked := unchecked - {k};
      }
      return true;
    }

    /** `saveUser`: a taken email is refused; otherwise the user is stored under a fresh id. */
    method SaveUser(user: User) returns (r: Result<int>)
      requires Valid()
      modifies this
      ensures Valid()
      ensures r.Ok? || r.BadEmail?
      ensures r.BadEmail? <==> EmailTaken(old(users), user.email, None)
      ensures r.BadEmail? ==> users == old(users) && generatedId == old(generatedId)
      ensures r.Ok? ==> r.value == generatedId == old(generatedId) + 1
      ensures r.Ok? ==> (forall k :: k in old(users) ==> k < r.value) && users == old(users)[r.value := user]
      ensures r.Ok? ==> GetUser(r.value) == Some(user)
    {
      var ok := CheckEmail(user.email, None);
      if !ok {
        return BadEmail;
      }
      var id := GenerateId();
      users := users[id := user];
      r := Ok(id);
    }

    /**
     * `updateUser`: the user must exist; a new email must not belong to another user;
     * then the DTO's present fields are set.
     */
    method UpdateUser(dto: UserDto, userId: int) returns (r: Result<User>)
      requires Valid()
      modifies this
      ensures Valid() && generatedId == old(generatedId)
      ensures r.Ok? || r.NotFound? || r.BadEmail?
      ensures r.NotFound? <==> userId !in old(users)
      ensures r.BadEmail? <==> userId in old(users) && dto.email.Some? &&
                               EmailTaken(old(users), dto.email.value, Some(userId))
      ensures !r.Ok? ==> users == old(users)
      ensures r.Ok? ==> r.value == PatchUser(old(users)[userId], dto) && users == old(users)[userId := r.value]
    {
      if userId !in users {
        return NotFound;
      }
      var user := users[userId];
      if dto.email.Some? {
        var ok := CheckEmail(dto.email.value, Some(userId));
        if !ok {
          return BadEmail;
        }
        user := user.(email := dto.email.value);
      }
      if dto.name.Some? {
        user := user.(name := dto.name.value);
      }
      users := users[userId := user];
      r := Ok(user);
    }

    /** `getUser`: the stored user, or nothing for an unknown id. */
    function GetUser(userId: int): (r: Option<User>)
      reads this
      ensures r.None? <==> userId !in users
      ensures r.Some? ==> r.value == users[userId]
    {
      if userId in users then Some(users[userId]) else None
    }

    /** `deleteUser`: removes that id, if present, and nothing else. */
    method DeleteUser(userId: int)
      requires Valid()
      modifies this
      ensures Valid() && generatedId == old(generatedId)
      ensures userId !in users && GetUser(userId).None?
      ensures forall k :: k != userId ==> GetUser(k) == old(GetUser(k))
    {
      users := users - {userId};
    }
  }
}
