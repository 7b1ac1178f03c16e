/** The rows of the user backend's tables (user_backend/app/api/v1/core/models.py)
    that the security and endpoint logic reads. Nullable columns are `Option`s;
    times are whole seconds. */
module UserModels {
  import opened Wrappers
  import opened Seqs

  /** A row of `tokens`: its primary key, the owner and the expiry. `user_id`
      is nullable: deleting the user sets it to null. */
  datatype TokenRow = TokenRow(id: int, userId: Option<int>, expireDate: int)

  /** The token table keyed by the token string, which is unique. */
  type TokenStore = map<string, TokenRow>

  /** A row of `users`; `user_type_id` is nullable. */
  datatype User = User(id: int, firstName: string, lastName: string, email: string,
                       hashedPassword: string, userTypeId: Option<int>)

  /** A row of `user_types`; names are unique. */
  datatype UserType = UserType(id: int, name: string)

  /** The user a nullable `user_id` points to (`select(User).where(User.id == id).first()`). */
  function UserById(users: seq<User>, id: Option<int>): (r: Option<User>)
    ensures r.Some? ==> r.value in users && Some(r.value.id) == id
    ensures r.None? <==> forall i :: 0 <= i < |users| ==> Some(users[i].id) != id
  {
    FirstWhere(users, (u: User) => Some(u.id) == id)
  }
}
