/**
 * The custom-field table of a MapLocationDistance sort clause.
 *
 * The clause keeps its overrides as a nested PHP array,
 * content type identifier -> field definition identifier -> custom field name.
 * This module gives that table as a value, the write that `setCustomField`
 * performs on it, and its meaning: a finite map keyed by the pair
 * (content type identifier, field definition identifier).
 */
module CustomFields {
  import opened Wrappers

  /** The nested table as the clause stores it. */
  type Fields = map<string, map<string, string>>

  /** What the table means: one custom field name per (type, field) pair. */
  type Overrides = map<(string, string), string>

  /** The inner table of a content type; PHP auto-creates it as an empty array on first write. */
  function FieldsOf(m: Fields, typeIdentifier: string): map<string, string>
  {
    if typeIdentifier in m then m[typeIdentifier] else map[]
  }

  /** Only writes populate the table, so no content type is left with an empty inner table. */
  ghost predicate WellFormed(m: Fields)
  {
    forall t :: t in m ==> m[t] != map[]
  }

  /** The pair-keyed meaning of a nested table. */
  ghost function View(m: Fields): Overrides
  {
    map t, f | t in m && f in m[t] :: (t, f) := m[t][f]
  }

  /** The override for one pair, or `None` when the pair has none. */
  function OverrideOf(o: Overrides, typeIdentifier: string, fieldIdentifier: string): Option<string>
  {
    if (typeIdentifier, fieldIdentifier) in o then Some(o[(typeIdentifier, fieldIdentifier)]) else None
  }

  /** `$customFields[$type][$field] = $customField` on the table as a value. */
  function Store(m: Fields, typeIdentifier: string, fieldIdentifier: string, customField: string): (r: Fields)
    ensures WellFormed(m) ==> WellFormed(r)
    ensures r.Keys == m.Keys + {typeIdentifier}
  {
    var inner := FieldsOf(m, typeIdentifier)[fieldIdentifier := customField];
    assert fieldIdentifier in inner;
    m[typeIdentifier := inner]
  }

  /** Membership in the meaning is exactly the two nested `isset` tests. */
  lemma ViewMembership(m: Fields, typeIdentifier: string, fieldIdentifier: string)
    ensures (typeIdentifier, fieldIdentifier) in View(m)
            <==> typeIdentifier in m && fieldIdentifier in m[typeIdentifier]
    ensures (typeIdentifier, fieldIdentifier) in View(m)
            ==> View(m)[(typeIdentifier, fieldIdentifier)] == m[typeIdentifier][fieldIdentifier]
  {
    if typeIdentifier in m && fieldIdentifier in m[typeIdentifier] {
      assert (typeIdentifier, fieldIdentifier) in View(m);
    }
  }

  /** What one write does to the override of any single pair. */
  lemma StoreAt(m: Fields, typeIdentifier: string, fieldIdentifier: string, customField: string, t: string, f: string)
    ensures OverrideOf(View(Store(m, typeIdentifier, fieldIdentifier, customField)), t, f)
            == if (t, f) == (typeIdentifier, fieldIdentifier) then Some(customField) else OverrideOf(View(m), t, f)
  {
    ViewMembership(Store(m, typeIdentifier, fieldIdentifier, customField), t, f);
    ViewMembership(m, t, f);
  }

  /** A write sets the one pair it names and leaves every other pair as it was. */
  lemma StoreUpdatesView(m: Fields, typeIdentifier: string, fieldIdentifier: string, customField: string)
    ensures View(Store(m, typeIdentifier, fieldIdentifier, customField))
            == View(m)[(typeIdentifier, fieldIdentifier) := customField]
  {
    var after := View(Store(m, typeIdentifier, fieldIdentifier, customField));
    var expected := View(m)[(typeIdentifier, fieldIdentifier) := customField];
    forall p: (string, string)
      ensures OverrideOf(after, p.0, p.1) == OverrideOf(expected, p.0, p.1)
    {
      StoreAt(m, typeIdentifier, fieldIdentifier, customField, p.0, p.1);
    }
    forall p | p in after ensures p in expected && after[p] == expected[p] {
      assert OverrideOf(after, p.0, p.1) == OverrideOf(expected, p.0, p.1);
    }
    forall p | p in expected ensures p in after {
      assert OverrideOf(after, p.0, p.1) == OverrideOf(expected, p.0, p.1);
    }
  }

  /** A second write to the same pair replaces the first one entirely. */
  lemma StoreOverwrites(m: Fields, typeIdentifier: string, fieldIdentifier: string, first: string, second: string)
    ensures Store(Store(m, typeIdentifier, fieldIdentifier, first), typeIdentifier, fieldIdentifier, second)
            == Store(m, typeIdentifier, fieldIdentifier, second)
  {
    var once := Store(m, typeIdentifier, fieldIdentifier, first);
    assert FieldsOf(once, typeIdentifier)[fieldIdentifier := second]
           == FieldsOf(m, typeIdentifier)[fieldIdentifier := second];
  }

  /**
   * On well-formed tables the nested form carries no more than its meaning:
   * two tables with the same overrides are the same table.
   */
  lemma ViewDeterminesFields(m1: Fields, m2: Fields)
    requires WellFormed(m1) && WellFormed(m2)
    requires View(m1) == View(m2)
    ensures m1 == m2
  {
    forall t | t in m1 ensures t in m2 && m1[t] == m2[t] {
      var f :| f in m1[t];
      ViewMembership(m1, t, f);
      ViewMembership(m2, t, f);
      InnerAgrees(m1, m2, t);
    }
    forall t | t in m2 ensures t in m1 {
      var f :| f in m2[t];
      ViewMembership(m1, t, f);
      ViewMembership(m2, t, f);
    }
  }

  lemma InnerAgrees(m1: Fields, m2: Fields, t: string)
    requires t in m1 && t in m2
    requires View(m1) == View(m2)
    ensures m1[t] == m2[t]
  {
    forall f | f in m1[t] ensures f in m2[t] && m1[t][f] == m2[t][f] {
      ViewMembership(m1, t, f);
      ViewMembership(m2, t, f);
    }
    forall f | f in m2[t] ensures f in m1[t] {
      ViewMembership(m1, t, f);
      ViewMembership(m2, t, f);
    }
  }

  /** One `setCustomField` call, recorded with its arguments. */
  datatype Write = Write(typeIdentifier: string, fieldIdentifier: string, customField: string)

  /** The table after the given calls, oldest first. */
  function Replay(m: Fields, writes: seq<Write>): Fields
    decreases |writes|
  {
    if writes == [] then m
    else
      var w := writes[|writes| - 1];
      Store(Replay(m, writes[..|writes| - 1]), w.typeIdentifier, w.fieldIdentifier, w.customField)
  }

  /** The value of the latest call that wrote the pair, or `None` when no call did. */
  function LastWrite(writes: seq<Write>, typeIdentifier: string, fieldIdentifier: string): Option<string>
    decreases |writes|
  {
    if writes == [] then None
    else
      var w := writes[|writes| - 1];
      if w.typeIdentifier == typeIdentifier && w.fieldIdentifier == fieldIdentifier then Some(w.customField)
      else LastWrite(writes[..|writes| - 1], typeIdentifier, fieldIdentifier)
  }

  /** After any sequence of writes a pair holds its last written value, or what it held before. */
  lemma {:induction false} ReplayLastWriteWins(m: Fields, writes: seq<Write>, typeIdentifier: string, fieldIdentifier: string)
    ensures OverrideOf(View(Replay(m, writes)), typeIdentifier, fieldIdentifier)
            == if LastWrite(writes, typeIdentifier, fieldIdentifier).Some?
               then LastWrite(writes, typeIdentifier, fieldIdentifier)
               else OverrideOf(View(m), typeIdentifier, fieldIdentifier)
    decreases |writes|
  {
    if writes != [] {
      var w := writes[|writes| - 1];
      var before := Replay(m, writes[..|writes| - 1]);
      ReplayLastWriteWins(m, writes[..|writes| - 1], typeIdentifier, fieldIdentifier);
      StoreUpdatesView(before, w.typeIdentifier, w.fieldIdentifier, w.customField);
    }
  }

  /**
   * Starting from the empty table of a fresh clause, a pair never written has no
   * override and a written pair holds the value of its last write.
   */
  lemma FreshTableLastWriteWins(writes: seq<Write>, typeIdentifier: string, fieldIdentifier: string)
    ensures OverrideOf(View(Replay(map[], writes)), typeIdentifier, fieldIdentifier)
            == LastWrite(writes, typeIdentifier, fieldIdentifier)
  {
    ReplayLastWriteWins(map[], writes, typeIdentifier, fieldIdentifier);
    ViewMembership(map[], typeIdentifier, fieldIdentifier);
  }
}
