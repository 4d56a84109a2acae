/** The preview table: which columns it shows, in what order, and the
    badge colours of statuses and operators. */
module Preview {
  import opened Results
  import opened Seqs
  import opened Contacts
  import Phone

  /** The keys of a contact object in insertion order; `messageId` exists
      only once a send has set it. */
  function KeysOf(c: Contact): seq<string> {
    ["email", "name", "phone", "status", "operator"] + (if c.messageId.Some? then ["messageId"] else [])
  }

  /** Keys that are internal to the model and never shown. */
  predicate Shown(key: string) {
    key != "phone" && key != "formattedPhone" && key != "messageId"
  }

  /** Keys the table places itself rather than where the contact has them. */
  predicate Unpinned(key: string) {
    key != "status" && key != "operator" && key != "Phone"
  }

  /** The shown keys in their original order, without repeats and without
      the pinned ones. */
  function MiddleColumns(keys: seq<string>): seq<string> {
    Filter(Dedupe(Filter(keys, Shown)), Unpinned)
  }

  /** The column headers for a first contact with the given keys. */
  function Columns(keys: seq<string>): (cols: seq<string>)
    ensures |cols| >= 3
    ensures cols[0] == "Phone" && cols[|cols| - 2] == "operator" && cols[|cols| - 1] == "status"
  {
    ["Phone"] + MiddleColumns(keys) + ["operator", "status"]
  }

  /** The columns are exactly `Phone`, `operator`, `status` and the shown
      keys of the contact; internal keys never appear; no column repeats;
      and the contact's own keys keep their relative order. */
  lemma ColumnsExact(keys: seq<string>)
    ensures forall k :: k in Columns(keys) <==>
              k == "Phone" || k == "operator" || k == "status" || (k in keys && Shown(k))
    ensures "phone" !in Columns(keys) && "formattedPhone" !in Columns(keys) && "messageId" !in Columns(keys)
    ensures NoDuplicates(Columns(keys))
    ensures Subseq(MiddleColumns(keys), keys)
  {
    MiddleColumnsMembers(keys);
    FilterNoDuplicates(Dedupe(Filter(keys, Shown)), Unpinned);
    ColumnsNoDuplicates(MiddleColumns(keys));
    MiddleColumnsInOrder(keys);
  }

  lemma MiddleColumnsMembers(keys: seq<string>)
    ensures forall k :: k in MiddleColumns(keys) <==> k in keys && Shown(k) && Unpinned(k)
  {
    var shown := Filter(keys, Shown);
    forall k
      ensures k in MiddleColumns(keys) <==> k in keys && Shown(k) && Unpinned(k)
    {
      FilterMembership(Dedupe(shown), Unpinned, k);
      FilterMembership(keys, Shown, k);
    }
  }

  lemma MiddleColumnsInOrder(keys: seq<string>)
    ensures Subseq(MiddleColumns(keys), keys)
  {
    var shown := Filter(keys, Shown);
    FilterSubseq(keys, Shown);
    DedupeSubseq(shown);
    FilterSubseq(Dedupe(shown), Unpinned);
    SubseqTrans(Dedupe(shown), shown, keys);
    SubseqTrans(MiddleColumns(keys), Dedupe(shown), keys);
  }

  /** Wrapping a repeat-free middle without pinned keys in the pinned
      columns keeps it repeat-free. */
  lemma ColumnsNoDuplicates(mid: seq<string>)
    requires NoDuplicates(mid)
    requires forall i | 0 <= i < |mid| :: Unpinned(mid[i])
    ensures NoDuplicates(["Phone"] + mid + ["operator", "status"])
  {
    var cols := ["Phone"] + mid + ["operator", "status"];
    forall i, j | 0 <= i < j < |cols|
      ensures cols[i] != cols[j]
    {
      if 0 < i && j <= |mid| {
        assert cols[i] == mid[i - 1] && cols[j] == mid[j - 1];
      } else if i == 0 && j <= |mid| {
        assert Unpinned(mid[j - 1]);
      } else if 0 < i <= |mid| {
        assert Unpinned(mid[i - 1]);
      }
    }
  }

  /** `DataPreview`: nothing without contacts, otherwise the columns of the
      first contact. */
  function PreviewColumns(data: Option<seq<Contact>>): (cols: Option<seq<string>>)
    ensures cols.None? <==> data.None? || |data.value| == 0
  {
    if data.None? || |data.value| == 0 then None else Some(Columns(KeysOf(data.value[0])))
  }

  /** For a contact the importer built, the table shows exactly `Phone`,
      `email`, `name`, `operator` and `status`, in that order, whether or
      not a send has given it a message id. */
  lemma ImportedContactColumns(data: seq<Contact>)
    requires |data| > 0
    ensures PreviewColumns(Some(data)) == Some(["Phone", "email", "name", "operator", "status"])
  {
    var keys := KeysOf(data[0]);
    ContactMiddleColumns(data[0]);
    assert Columns(keys) == ["Phone"] + ["email", "name"] + ["operator", "status"];
    assert ["Phone"] + ["email", "name"] + ["operator", "status"] == ["Phone", "email", "name", "operator", "status"];
    assert PreviewColumns(Some(data)) == Some(Columns(keys));
  }

  lemma ContactMiddleColumns(c: Contact)
    ensures MiddleColumns(KeysOf(c)) == ["email", "name"]
  {
    var shown := ["email", "name", "status", "operator"];
    ShownContactKeys(c);
    ShownKeysDistinct();
    DedupeNoDuplicates(shown);
    UnpinnedContactKeys();
  }

  lemma ShownContactKeys(c: Contact)
    ensures Filter(KeysOf(c), Shown) == ["email", "name", "status", "operator"]
  {
    var keys := KeysOf(c);
    var base := ["email", "name", "phone", "status", "operator"];
    assert keys == base + keys[5..];
    FilterAppend(base, keys[5..], Shown);
    FilterDropsAll(keys[5..], Shown);
    ShownBaseKeys();
  }

  lemma ShownBaseKeys()
    ensures Filter(["email", "name", "phone", "status", "operator"], Shown) == ["email", "name", "status", "operator"]
  {
    assert ["email", "name", "phone", "status", "operator"] == ["email", "name", "phone"] + ["status", "operator"];
    FilterAppend(["email", "name", "phone"], ["status", "operator"], Shown);
    ShownFirstKeys();
    ShownLastKeys();
  }

  lemma ShownFirstKeys()
    ensures Filter(["email", "name", "phone"], Shown) == ["email", "name"]
  {
    assert ["email", "name", "phone"] == ["email"] + ["name"] + ["phone"];
    FilterAppend(["email"] + ["name"], ["phone"], Shown);
    FilterAppend(["email"], ["name"], Shown);
    FilterOne("email", Shown);
    FilterOne("name", Shown);
    FilterOne("phone", Shown);
  }

  lemma ShownLastKeys()
    ensures Filter(["status", "operator"], Shown) == ["status", "operator"]
  {
    FilterKeepsAll(["status", "operator"], Shown);
  }

  lemma ShownKeysDistinct()
    ensures NoDuplicates(["email", "name", "status", "operator"])
  {
  }

  lemma UnpinnedContactKeys()
    ensures Filter(["email", "name", "status", "operator"], Unpinned) == ["email", "name"]
  {
    assert ["email", "name", "status", "operator"] == ["email", "name"] + ["status", "operator"];
    FilterAppend(["email", "name"], ["status", "operator"], Unpinned);
    FilterKeepsAll(["email", "name"], Unpinned);
    FilterDropsAll(["status", "operator"], Unpinned);
  }

  // ---------------------------------------------------------------------
  // badge colours
  // ---------------------------------------------------------------------

  const DefaultColor := "bg-gray-500"

  /** `getStatusColor`. */
  function StatusColor(status: string): (color: string)
    ensures color == DefaultColor <==>
              status != "DELIVRD" && status != "UNDELIV" && status != "PENDING" && status != "FAILED"
  {
    match status
    case "DELIVRD" => "bg-green-500"
    case "UNDELIV" => "bg-red-500"
    case "PENDING" => "bg-yellow-500"
    case "FAILED" => "bg-red-700"
    case _ => DefaultColor
  }

  /** `getOperatorColor`. */
  function OperatorColor(operator: string): (color: string)
    ensures color == DefaultColor <==>
              operator != "Orange" && operator != "MTN" && operator != "Nexttel" && operator != "Camtel"
  {
    match operator
    case "Orange" => "bg-orange-500"
    case "MTN" => "bg-yellow-500"
    case "Nexttel" => "bg-blue-500"
    case "Camtel" => "bg-green-500"
    case _ => DefaultColor
  }

  /** Each status and each carrier has its own colour, and a contact the
      importer built has the grey badge exactly when its phone is
      invalid. */
  lemma ColorsDistinguish(row: Row)
    ensures StatusColor("DELIVRD") != StatusColor("UNDELIV")
    ensures StatusColor("UNDELIV") != StatusColor("FAILED")
    ensures StatusColor("DELIVRD") != StatusColor("FAILED")
    ensures StatusColor("PENDING") != StatusColor("DELIVRD")
    ensures StatusColor("PENDING") != StatusColor("UNDELIV")
    ensures StatusColor("PENDING") != StatusColor("FAILED")
    ensures OperatorColor("Orange") != OperatorColor("MTN")
    ensures OperatorColor("Orange") != OperatorColor("Nexttel")
    ensures OperatorColor("Orange") != OperatorColor("Camtel")
    ensures OperatorColor("MTN") != OperatorColor("Nexttel")
    ensures OperatorColor("MTN") != OperatorColor("Camtel")
    ensures OperatorColor("Nexttel") != OperatorColor("Camtel")
    ensures StatusColor(NotSent) == DefaultColor
    ensures OperatorColor(FormatContact(row).operator) == DefaultColor <==>
              !Phone.Validate(RawPhone(row)).isValid
  {
    var v := Phone.Validate(RawPhone(row));
    assert v.operator.Name() == FormatContact(row).operator;
  }
}
