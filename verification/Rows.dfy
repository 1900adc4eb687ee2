/** Canonical rows as the adapters deliver them. */
module Rows {
  import opened Prelude

  /** How often each kind of private data was removed from a row, or from all rows together. */
  datatype Redactions = Redactions(emailAddresses: int, ipAddresses: int, phoneNumbers: int, mailRoutingHeaders: int,
                                   credentials: int)

  const NoRedactions := Redactions(0, 0, 0, 0, 0)

  function PlusRedactions(a: Redactions, b: Redactions): Redactions {
    Redactions(a.emailAddresses + b.emailAddresses, a.ipAddresses + b.ipAddresses, a.phoneNumbers + b.phoneNumbers,
               a.mailRoutingHeaders + b.mailRoutingHeaders, a.credentials + b.credentials)
  }

  /** The kinds of private data. */
  datatype Removal = EmailAddress | IPAddress | PhoneNumber | MailRoutingHeader | Credential

  function Removed(r: Redactions, k: Removal): int {
    match k
    case EmailAddress => r.emailAddresses
    case IPAddress => r.ipAddresses
    case PhoneNumber => r.phoneNumbers
    case MailRoutingHeader => r.mailRoutingHeaders
    case Credential => r.credentials
  }

  predicate NonNegative(r: Redactions) {
    r.emailAddresses >= 0 && r.ipAddresses >= 0 && r.phoneNumbers >= 0 && r.mailRoutingHeaders >= 0 && r.credentials >= 0
  }

  /** Bytes are characters here; `hash` is the binary content digest. */
  datatype Row = Row(hash: string, license: string, source: Option<string>, text: string, redactions: Redactions)

  /** All texts, one after the other. */
  function Texts(rows: seq<Row>): string { if rows == [] then "" else Texts(rows[..|rows| - 1]) + rows[|rows| - 1].text }

  function Flatten<T>(parts: seq<seq<T>>): seq<T> {
    if parts == [] then [] else Flatten(parts[..|parts| - 1]) + parts[|parts| - 1]
  }

  lemma FlattenAppend<T>(parts: seq<seq<T>>, last: seq<T>)
    ensures Flatten(parts + [last]) == Flatten(parts) + last
  {
    assert (parts + [last])[..|parts|] == parts;
  }

  lemma {:induction false} FlattenConcat<T>(a: seq<seq<T>>, b: seq<seq<T>>)
    ensures Flatten(a + b) == Flatten(a) + Flatten(b)
  {
    if b == [] {
      assert a + b == a;
    } else {
      var all, front := a + b, b[..|b| - 1];
      assert all[..|all| - 1] == a + front;
      FlattenConcat(a, front);
    }
  }

  /** Elements of a part are elements of the whole. */
  lemma {:induction false} FlattenHas<T>(parts: seq<seq<T>>, part: seq<T>)
    requires part in parts
    ensures forall x :: x in part ==> x in Flatten(parts)
  {
    if part != parts[|parts| - 1] {
      assert parts == parts[..|parts| - 1] + [parts[|parts| - 1]];
      FlattenHas(parts[..|parts| - 1], part);
    }
  }
}
