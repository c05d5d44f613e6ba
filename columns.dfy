/**
 * Column roles and bindings, shared by parser.py and backup.py: the
 * `column_map` labels, the per-cell `if/elif` chain that gives a header cell
 * at most one role, and the loop that records, for each role, the column of
 * the last cell that got it.
 */
module Columns {
  import opened Wrappers
  import opened Text

  datatype Role = Date | Description | Amount | Currency | Details

  /** `column_map`: the header labels of each role, as written in the source. */
  function Labels(r: Role): seq<string> {
    match r
    case Date => ["Дата", "Date"]
    case Amount => ["Сумма", "Amount"]
    case Currency => ["Валюта", "Transaction currency"]
    case Description => ["Описание", "Description", "Операция", "Operation"]
    case Details => ["Детализация", "Детали", "Details"]
  }

  /** Some label of `role`, lower-cased, occurs in the (already lower-cased) header. */
  predicate Labelled(header: string, r: Role) {
    exists k :: 0 <= k < |Labels(r)| && Contains(header, Lower(Labels(r)[k]))
  }

  /** The order of the `elif` chain in parser.py. */
  const ParserPriority: seq<Role> := [Date, Description, Amount, Currency, Details]

  /** The order of the `elif` chain in backup.py. */
  const BackupPriority: seq<Role> := [Date, Amount, Description, Currency, Details]

  /** The role the `elif` chain gives a header: the first role in `priority` whose labels occur in it. */
  function RoleOf(header: string, priority: seq<Role>): (r: Option<Role>)
    ensures r.Some? ==> exists i :: 0 <= i < |priority| && priority[i] == r.value && Labelled(header, r.value)
                          && forall j :: 0 <= j < i ==> !Labelled(header, priority[j])
    ensures r.None? ==> forall i :: 0 <= i < |priority| ==> !Labelled(header, priority[i])
  {
    if |priority| == 0 then None
    else if Labelled(header, priority[0]) then Some(priority[0])
    else
      var r := RoleOf(header, priority[1..]);
      assert forall i :: 1 <= i < |priority| ==> priority[1..][i - 1] == priority[i];
      if r.Some? then
        var i :| 0 <= i < |priority[1..]| && priority[1..][i] == r.value && Labelled(header, r.value)
                 && forall j :: 0 <= j < i ==> !Labelled(header, priority[1..][j]);
        assert forall j :: 0 <= j < i + 1 ==> !Labelled(header, priority[j]) by {
          forall j | 0 <= j < i + 1 ensures !Labelled(header, priority[j]) {
            if j > 0 { assert priority[j] == priority[1..][j - 1]; }
          }
        }
        r
      else r
  }

  /** A role-to-column map; a role without a column is absent. */
  type Binding = map<Role, nat>

  /** The role of each header, in column order. */
  function RolesOf(headers: seq<string>, priority: seq<Role>): (roles: seq<Option<Role>>)
    ensures |roles| == |headers| && forall i :: 0 <= i < |headers| ==> roles[i] == RoleOf(headers[i], priority)
  {
    seq(|headers|, i requires 0 <= i < |headers| => RoleOf(headers[i], priority))
  }

  /**
   * Assigning column after column: every role that occurs is bound, to its
   * last column, and no other role is bound.
   */
  function Bind(roles: seq<Option<Role>>): (b: Binding)
    ensures forall r :: r in b ==> b[r] < |roles| && roles[b[r]] == Some(r)
    ensures forall r :: r in b ==> forall j :: b[r] < j < |roles| ==> roles[j] != Some(r)
    ensures forall i :: 0 <= i < |roles| && roles[i].Some? ==> roles[i].value in b
  {
    if |roles| == 0 then map[]
    else
      var n := |roles| - 1;
      var prev := Bind(roles[..n]);
      assert forall j :: 0 <= j < n ==> roles[..n][j] == roles[j];
      if roles[n].Some? then prev[roles[n].value := n] else prev
  }

  /**
   * The binding the header loop builds: every role some header gets is
   * bound, to the column of the last header that gets it (later cells
   * overwrite earlier ones), and no other role is bound.
   */
  function BindingOf(headers: seq<string>, priority: seq<Role>): (b: Binding)
    ensures forall r :: r in b ==> b[r] < |headers| && RoleOf(headers[b[r]], priority) == Some(r)
    ensures forall r :: r in b ==> forall j :: b[r] < j < |headers| ==> RoleOf(headers[j], priority) != Some(r)
    ensures forall i :: 0 <= i < |headers| && RoleOf(headers[i], priority).Some? ==> RoleOf(headers[i], priority).value in b
  {
    Bind(RolesOf(headers, priority))
  }

  /** One more header: its role, if any, now points at it; nothing else changes. */
  lemma BindingStep(headers: seq<string>, priority: seq<Role>, i: nat)
    requires i < |headers|
    ensures var role := RoleOf(headers[i], priority);
            BindingOf(headers[..i + 1], priority)
            == if role.Some? then BindingOf(headers[..i], priority)[role.value := i] else BindingOf(headers[..i], priority)
  {
    var roles := RolesOf(headers[..i + 1], priority);
    assert roles[..i] == RolesOf(headers[..i], priority);
  }

  /**
   * The header loop: walks the cells once, binding each cell's role to its
   * column. `found` says whether any cell got a role (backup.py's flag).
   */
  method BindColumns(headers: seq<string>, priority: seq<Role>) returns (b: Binding, found: bool)
    ensures b == BindingOf(headers, priority)
    ensures found <==> exists i :: 0 <= i < |headers| && RoleOf(headers[i], priority).Some?
  {
    b, found := map[], false;
    assert headers[..0] == [];
    for i := 0 to |headers|
      invariant b == BindingOf(headers[..i], priority)
      invariant found <==> exists j :: 0 <= j < i && RoleOf(headers[j], priority).Some?
    {
      BindingStep(headers, priority, i);
      var role := RoleOf(headers[i], priority);
      if role.Some? {
        b := b[role.value := i];
        found := true;
      }
    }
    assert headers[..|headers|] == headers;
  }

  /** Some header got a role exactly when the binding is not empty. */
  lemma FoundIffBound(headers: seq<string>, priority: seq<Role>)
    ensures (exists i :: 0 <= i < |headers| && RoleOf(headers[i], priority).Some?) <==> BindingOf(headers, priority) != map[]
  {
    var b := BindingOf(headers, priority);
    if b != map[] {
      var r :| r in b;
      assert RoleOf(headers[b[r]], priority).Some?;
    }
  }

  /** Each column holds at most one role: distinct roles are bound to distinct columns. */
  lemma BindingInjective(headers: seq<string>, priority: seq<Role>, r1: Role, r2: Role)
    requires r1 in BindingOf(headers, priority) && r2 in BindingOf(headers, priority) && r1 != r2
    ensures BindingOf(headers, priority)[r1] != BindingOf(headers, priority)[r2]
  {
  }

  /**
   * The two chains disagree on a header carrying both an amount label and a
   * description label (and no date label): parser.py calls it a description,
   * backup.py an amount.
   */
  lemma PriorityDiffers(header: string)
    requires Labelled(header, Amount) && Labelled(header, Description) && !Labelled(header, Date)
    ensures RoleOf(header, ParserPriority) == Some(Description)
    ensures RoleOf(header, BackupPriority) == Some(Amount)
  {
  }

  /** A binding that can produce records: date, description and amount columns are all known. */
  predicate Complete(b: Binding) {
    Date in b && Description in b && Amount in b
  }
}
