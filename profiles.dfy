/**
  The profile that `getUserProfile` (server/storage.ts) builds from a user row.
  A null field and an empty string are both falsy in the source, so each
  optional text field is read as its value or "".
 */
module Profiles {
  import opened Wrappers
  import opened Text
  import opened Seqs
  import opened Schema

  /** The name shown when neither a first nor a last name is known. */
  const UnknownName: string := "Unknown User"

  /** JavaScript truthiness of a string: it is not empty. */
  predicate Truthy(s: string) {
    s != ""
  }

  /** `[firstName, lastName].filter(Boolean).join(' ') || 'Unknown User'`. */
  function DisplayName(firstName: Option<string>, lastName: Option<string>): (name: string)
    ensures name != ""
  {
    var parts := Filter([firstName.GetOr(""), lastName.GetOr("")], Truthy);
    var joined := Join(parts, " ");
    if joined == "" then UnknownName else joined
  }

  /**
    The name is the non-empty parts of first and last name joined by one
    space, or "Unknown User" when both are missing or empty.
   */
  lemma {:induction false} DisplayNameCases(firstName: Option<string>, lastName: Option<string>)
    ensures var first, last := firstName.GetOr(""), lastName.GetOr("");
            DisplayName(firstName, lastName)
            == if first != "" && last != "" then first + " " + last
               else if first != "" then first
               else if last != "" then last
               else UnknownName
  {
    var first, last := firstName.GetOr(""), lastName.GetOr("");
    TruthyParts(first, last);
    var parts := Filter([first, last], Truthy);
    if first != "" && last != "" {
      assert parts == [first, last] && parts[1..] == [last];
      assert Join(parts, " ") == first + " " + Join([last], " ");
    }
  }

  /** `[first, last].filter(Boolean)`: the non-empty names, in order. */
  lemma TruthyParts(first: string, last: string)
    ensures Filter([first, last], Truthy)
            == (if first != "" then [first] else []) + (if last != "" then [last] else [])
  {
    FilterSnoc([], first, Truthy);
    FilterSnoc([first], last, Truthy);
    assert [first, last] == [first] + [last];
    assert [first] == [] + [first];
  }

  /** `user.field || default` for a nullable text field. */
  function TextOr(field: Option<string>): (r: string)
    ensures r == "" <==> field.None? || field == Some("")
    ensures field.Some? ==> r == field.value
  {
    field.GetOr("")
  }

  /** The profile of a found user row, or the all-default profile when there is none. */
  function ProfileOf(user: Option<Row<User>>): (p: UserProfile)
    ensures p.name != ""
    ensures user.None? ==> p == UserProfile("", UnknownName, "", "", false)
    ensures user.Some? ==>
              && p.callSign == TextOr(user.value.data.callSign)
              && p.badgeNumber == TextOr(user.value.data.badgeNumber)
              && p.licenseClass == TextOr(user.value.data.licenseClass)
              && p.isRegistered == (user.value.data.isRegistered == Some(true))
  {
    match user
    case None => UserProfile("", UnknownName, "", "", false)
    case Some(row) =>
      UserProfile(
        TextOr(row.data.callSign),
        DisplayName(row.data.firstName, row.data.lastName),
        TextOr(row.data.badgeNumber),
        TextOr(row.data.licenseClass),
        row.data.isRegistered.GetOr(false))
  }

  /** A user row with no names and no other fields yields the same profile as no user at all. */
  lemma EmptyUserLooksUnknown(id: string)
    ensures ProfileOf(Some(Row(id, User(None, None, None, None, None, None)))) == ProfileOf(None)
  {
    DisplayNameCases(None, None);
  }
}
