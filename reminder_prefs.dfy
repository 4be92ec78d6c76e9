/** The calendar-reminder preference, kept as one string in browser storage:
    `"none"` for no reminder, otherwise the number of minutes before the
    event. */
module ReminderPrefs {
  import opened Common
  import opened Text

  /** `number | null`: `None` is an explicit "no reminder". */
  type ReminderMinutes = Option<int>

  const DefaultReminderMinutes: ReminderMinutes := Some(1440)

  /** The choices offered in the settings menu, with their labels. */
  const ReminderOptions: seq<(string, ReminderMinutes)> :=
    [("None", None), ("At time", Some(0)), ("1 hour before", Some(60)), ("1 day before", Some(1440))]

  /** What a stored string loads as (`loadReminderMinutes` once the storage
      cell has been read): nothing or `""` gives the default, `"none"` gives
      no reminder, a number below zero or not finite gives the default. */
  function Decode(raw: Option<string>): (r: ReminderMinutes)
    ensures r.None? || r.value >= 0
  {
    if !Truthy(raw) then DefaultReminderMinutes
    else if raw.value == "none" then None
    else
      match IntValue(raw.value)
      case None => DefaultReminderMinutes
      case Some(n) => if n < 0 then DefaultReminderMinutes else Some(n)
  }

  /** The string `saveReminderMinutes` stores. */
  function Encode(value: ReminderMinutes): string {
    match value
    case None => "none"
    case Some(n) => IntToString(n)
  }

  /** Loading after saving gives back the saved value, for no reminder and
      for every number of minutes that is not negative. */
  lemma DecodeEncode(value: ReminderMinutes)
    requires value.None? || value.value >= 0
    ensures Decode(Some(Encode(value))) == value
  {
    if value.Some? {
      IntValueOfIntToString(value.value);
      assert Encode(value) != "none" by {
        assert Encode(value)[0] != "none"[0];
      }
    }
  }

  /** A missing or empty cell loads as the default; `"none"` loads as no
      reminder; a negative number loads as the default. */
  lemma DecodeCases(raw: string)
    ensures Decode(None) == Some(1440) && Decode(Some("")) == Some(1440)
    ensures Decode(Some("none")) == None
    ensures IntValue(raw).Some? && IntValue(raw).value < 0 ==> Decode(Some(raw)) == Some(1440)
  {
    if IntValue(raw).Some? && IntValue(raw).value < 0 {
      assert raw[0] == '-';
      assert raw != "none" by {
        assert raw[0] != "none"[0];
      }
    }
  }

  /** The offered values are no reminder, 0, 60 and 1440 minutes; the
      default is one of them, and each survives a save and a load. */
  lemma OptionsCoverDefault()
    ensures (set i | 0 <= i < |ReminderOptions| :: ReminderOptions[i].1) == {None, Some(0), Some(60), Some(1440)}
    ensures exists i :: 0 <= i < |ReminderOptions| && ReminderOptions[i].1 == DefaultReminderMinutes
    ensures forall i :: 0 <= i < |ReminderOptions| ==> Decode(Some(Encode(ReminderOptions[i].1))) == ReminderOptions[i].1
  {
    var values := set i | 0 <= i < |ReminderOptions| :: ReminderOptions[i].1;
    assert ReminderOptions[0].1 in values && ReminderOptions[1].1 in values;
    assert ReminderOptions[2].1 in values && ReminderOptions[3].1 in values;
    assert ReminderOptions[3].1 == DefaultReminderMinutes;
    forall i | 0 <= i < |ReminderOptions|
      ensures Decode(Some(Encode(ReminderOptions[i].1))) == ReminderOptions[i].1
    {
      DecodeEncode(ReminderOptions[i].1);
    }
  }

  /** The browser storage cell. `available` is false during server rendering
      (no `window`) or when storage access throws; then loads give the
      default and saves are dropped. */
  class ReminderStore {
    var cell: Option<string>
    const available: bool

    constructor (cell: Option<string>, available: bool)
      ensures this.cell == cell && this.available == available
    {
      this.cell := cell;
      this.available := available;
    }

    /** `loadReminderMinutes`. */
    method Load() returns (r: ReminderMinutes)
      ensures r == if available then Decode(cell) else DefaultReminderMinutes
      ensures r.None? || r.value >= 0
    {
      if !available {
        return DefaultReminderMinutes;
      }
      var raw := cell;
      if !Truthy(raw) {
        return DefaultReminderMinutes;
      }
      if raw.value == "none" {
        return None;
      }
      var n := IntValue(raw.value);
      if n.None? || n.value < 0 {
        return DefaultReminderMinutes;
      }
      return n;
    }

    /** `saveReminderMinutes`. */
    method Save(value: ReminderMinutes)
      modifies this
      ensures cell == if available then Some(Encode(value)) else old(cell)
    {
      if !available {
        return;
      }
      if value.None? {
        cell := Some("none");
      } else {
        cell := Some(IntToString(value.value));
      }
    }
  }

  /** A save followed by a load returns the saved value. */
  method SaveThenLoad(store: ReminderStore, value: ReminderMinutes) returns (r: ReminderMinutes)
    requires store.available && (value.None? || value.value >= 0)
    modifies store
    ensures r == value
  {
    store.Save(value);
    DecodeEncode(value);
    r := store.Load();
  }
}
