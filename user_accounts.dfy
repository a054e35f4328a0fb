/**
 * UserServiceImpl in its email-set form: besides the user table it keeps the set of
 * emails in use and checks new emails against that set instead of scanning the table.
 */
module UserAccounts {
  import opened Common
  import opened Domain
  import opened Updates
  import opened UserStore

  /** The emails of the stored users. */
  function EmailsOf(users: map<int, User>): (emails: set<string>)
    ensures forall e :: e in emails <==> exists id :: id in users && users[id].email == e
  {
    set id | id in users :: users[id].email
  }

  /**
   * With unique emails, the set of emails answers the same question as the table scan:
   * an email is taken by somebody else exactly when it is in the set and is not the
   * user's own.
   */
  lemma EmailSetMatchesScan(users: map<int, User>, userId: int, email: string)
    requires EmailsUnique(users) && userId in users
    ensures (email in EmailsOf(users) && email != users[userId].email) <==> EmailTaken(users, email, Some(userId))
  {
  }

  /** For a new user the set check is the scan with no user to exempt. */
  lemma EmailSetMatchesScanOnSave(users: map<int, User>, email: string)
    ensures email in EmailsOf(users) <==> EmailTaken(users, email, None)
  {
  }

  /** Changing one user's email to a free one swaps that email in the set. */
  lemma {:induction false} EmailsAfterChange(users: map<int, User>, userId: int, user: User)
    requires EmailsUnique(users) && userId in users
    requires user.email == users[userId].email || user.email !in EmailsOf(users)
    ensures EmailsUnique(users[userId := user])
    ensures EmailsOf(users[userId := user]) == EmailsOf(users) - {users[userId].email} + {user.email}
  {
    var after := users[userId := user];
    assert after[userId].email == user.email;
    forall e
      ensures e in EmailsOf(after) <==> e in EmailsOf(users) - {users[userId].email} + {user.email}
    {
      if e in EmailsOf(users) - {users[userId].email} {
        var id :| id in users && users[id].email == e;
        assert id != userId;
        assert after[id].email == e;
      }
      if e in EmailsOf(after) && e != user.email {
        var id :| id in after && after[id].email == e;
        assert id != userId;
        assert users[id].email == e;
      }
    }
  }

  /** Storing a new user with a free email adds exactly that email to the set. */
  lemma {:induction false} EmailsAfterInsert(users: map<int, User>, userId: int, user: User)
    requires EmailsUnique(users) && userId !in users && user.email !in EmailsOf(users)
    ensures EmailsUnique(users[userId := user])
    ensures EmailsOf(users[userId := user]) == EmailsOf(users) + {user.email}
  {
    var after := users[userId := user];
    assert after[userId].email == user.email;
    forall e | e in EmailsOf(users)
      ensures e in EmailsOf(after)
    {
      var id :| id in users && users[id].email == e;
      assert after[id].email == e;
    }
  }

  /** Removing a user removes exactly its email from the set. */
  lemma {:induction false} EmailsAfterRemoval(users: map<int, User>, userId: int)
    requires EmailsUnique(users) && userId in users
    ensures EmailsOf(users - {userId}) == EmailsOf(users) - {users[userId].email}
  {
    var after := users - {userId};
    forall e | e in EmailsOf(users) - {users[userId].email}
      ensures e in EmailsOf(after)
    {
      var id :| id in users && users[id].email == e;
      assert id != userId;
      assert id in after;
    }
  }

  class UserService {
    var users: map<int, User>
    var emails: set<string>
    var generatedId: int

    /** The set holds exactly the stored users' emails, which are unique. */
    ghost predicate Valid()
      reads this
    {
      && 0 <= generatedId
      && (forall id :: id in users ==> 1 <= id <= generatedId)
      && EmailsUnique(users)
      && emails == EmailsOf(users)
    }

    constructor ()
      ensures Valid() && users == map[] && emails == {} && generatedId == 0
    {
      users := map[];
      emails := {};
      generatedId := 0;
    }

    /** `saveUser`: an email already in the set is refused; otherwise the user is stored. */
    method SaveUser(user: User) returns (r: Result<int>)
      requires Valid()
      modifies this
      ensures Valid()
      ensures r.Ok? || r.BadEmail?
      ensures r.BadEmail? <==> user.email in old(emails)
      ensures r.BadEmail? ==> users == old(users) && emails == old(emails) && generatedId == old(generatedId)
      ensures r.Ok? ==> r.value == generatedId == old(generatedId) + 1
      ensures r.Ok? ==> users == old(users)[r.value := user] && emails == old(emails) + {user.email}
    {
      if user.email in emails {
        return BadEmail;
      }
      generatedId := generatedId + 1;
      EmailsAfterInsert(users, generatedId, user);
      users := users[generatedId := user];
      emails := emails + {user.email};
      r := Ok(generatedId);
    }

    /**
     * `updateUser`: the user must exist; a new email that is in the set and is not the
     * user's own is refused; otherwise the old email leaves the set, the new one enters it
     * and the DTO's present fields are set.
     */
    method UpdateUser(dto: UserDto, userId: int) returns (r: Result<User>)
      requires Valid()
      modifies this
      ensures Valid() && generatedId == old(generatedId)
      ensures r.Ok? || r.NotFound? || r.BadEmail?
      ensures r.NotFound? <==> userId !in old(users)
      ensures r.BadEmail? <==> userId in old(users) && dto.email.Some? &&
                               dto.email.value in old(emails) && dto.email.value != old(users)[userId].email
      ensures !r.Ok? ==> users == old(users) && emails == old(emails)
      ensures r.Ok? ==> r.value == PatchUser(old(users)[userId], dto) && users == old(users)[userId := r.value]
      ensures r.Ok? && dto.email.Some? ==> emails == old(emails) - {old(users)[userId].email} + {dto.email.value}
      ensures r.Ok? && dto.email.None? ==> emails == old(emails)
    {
      if userId !in users {
        return NotFound;
      }
      var user := users[userId];
      if dto.email.Some? {
        if dto.email.value in emails && dto.email.value != user.email {
          return BadEmail;
        }
        emails := emails - {user.email};
        emails := emails + {dto.email.value};
        user := user.(email := dto.email.value);
      }
      if dto.name.Some? {
        user := user.(name := dto.name.value);
      }
      EmailsAfterChange(users, userId, user);
      users := users[userId := user];
      r := Ok(user);
    }

    /** `getUser`: the stored user, or NotFound. */
    function GetUser(userId: int): (r: Result<User>)
      reads this
      ensures r.Ok? || r.NotFound?
      ensures r.NotFound? <==> userId !in users
      ensures r.Ok? ==> r.value == users[userId]
    {
      if userId !in users then NotFound else Ok(users[userId])
    }

    /** `deleteUser`: the user must exist; its email leaves the set and the user is removed. */
    method DeleteUser(userId: int) returns (r: Result<User>)
      requires Valid()
      modifies this
      ensures Valid() && generatedId == old(generatedId)
      ensures r.Ok? || r.NotFound?
      ensures r.NotFound? <==> userId !in old(users)
      ensures r.NotFound? ==> users == old(users) && emails == old(emails)
      ensures r.Ok? ==> r.value == old(users)[userId]
      ensures r.Ok? ==> users == old(users) - {userId} && emails == old(emails) - {r.value.email}
    {
      if userId !in users {
        return NotFound;
      }
      var user := users[userId];
      EmailsAfterRemoval(users, userId);
      emails := emails - {user.email};
      users := users - {userId};
      r := Ok(user);
    }
  }
}
