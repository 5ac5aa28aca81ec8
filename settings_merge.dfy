/**
 * The bulk-update merge (backend/settings_merge.py): a device's default
 * document, with every top-level entry of a control template copied over
 * it except the identity subtree "rec-channels".
 */
module SettingsMerge {
  import opened Wrappers
  import opened Dicts
  import opened Json
  import opened MagewellSettings

  /** The template entries the merge copies: all but "rec-channels". */
  function Overrides(control: Dict): (updates: Dict)
    ensures Keys(updates) == Without(Keys(control), RecChannelsKey)
    ensures RecChannelsKey !in Keys(updates)
  {
    RemoveKeys(control, RecChannelsKey);
    Remove(control, RecChannelsKey)
  }

  /** The document `get_bulk_update_settings(id, control)` returns. */
  function BulkUpdateSettings(id: string, control: Dict): Dict
  {
    PutAll(GetModifiedSettings(id), Overrides(control))
  }

  /**
   * `get_bulk_update_settings`: copy the baseline, then assign each template
   * entry in template order, skipping "rec-channels". `control` is a value
   * and is only read.
   */
  method GetBulkUpdateSettings(id: string, control: Dict) returns (merged: Dict)
    ensures merged == BulkUpdateSettings(id, control)
  {
    var baseline := GetModifiedSettings(id);
    merged := baseline;
    for i := 0 to |control|
      invariant merged == PutAll(baseline, Overrides(control[..i]))
    {
      var key, controlValue := control[i].key, control[i].value;
      OverridesStep(baseline, control, i);
      if key == RecChannelsKey {
        continue;
      }
      merged := Put(merged, key, controlValue);
    }
    assert control[..|control|] == control;
  }

  /** One more template entry adds one assignment, unless it is the identity key. */
  lemma OverridesStep(b: Dict, control: Dict, i: nat)
    requires i < |control|
    ensures PutAll(b, Overrides(control[..i + 1])) ==
      if control[i].key == RecChannelsKey then PutAll(b, Overrides(control[..i]))
      else Put(PutAll(b, Overrides(control[..i])), control[i].key, control[i].value)
  {
    assert control[..i + 1] == control[..i] + [control[i]];
    RemoveAppend(control[..i], [control[i]], RecChannelsKey);
    if control[i].key == RecChannelsKey {
      assert Overrides(control[..i + 1]) == Overrides(control[..i]) + [];
      assert Overrides(control[..i]) + [] == Overrides(control[..i]);
    } else {
      assert Remove([control[i]], RecChannelsKey) == [control[i]];
      PutAllAppend(b, Overrides(control[..i]), [control[i]]);
    }
  }

  /**
   * The target's identity subtree survives the merge verbatim, whatever the
   * template holds (a template "rec-channels" entry is ignored).
   */
  lemma MergeKeepsIdentity(id: string, control: Dict)
    ensures Get(BulkUpdateSettings(id, control), RecChannelsKey) == Some(RecChannels(id))
  {
    RemoveKeys(control, RecChannelsKey);
    PutAllGetUntouched(GetModifiedSettings(id), Overrides(control), RecChannelsKey);
    DefaultRecChannels(id);
  }

  /**
   * Every template key other than "rec-channels" takes the template's value,
   * taken whole (nested objects are replaced, not merged); every other key
   * keeps the baseline's value.
   */
  lemma MergeLookup(id: string, control: Dict, k: string)
    requires UniqueKeys(control)
    ensures Get(BulkUpdateSettings(id, control), k) ==
      if k != RecChannelsKey && k in Keys(control) then Get(control, k)
      else Get(GetModifiedSettings(id), k)
  {
    RemoveKeys(control, RecChannelsKey);
    RemoveGet(control, RecChannelsKey, k);
    if k != RecChannelsKey && k in Keys(control) {
      RemoveUnique(control, RecChannelsKey);
      PutAllGetAssigned(GetModifiedSettings(id), Overrides(control), k);
    } else {
      PutAllGetUntouched(GetModifiedSettings(id), Overrides(control), k);
    }
  }

  /**
   * No key is dropped: the merged keys are the baseline's, in baseline
   * order, followed by the template's new keys in template order.
   */
  lemma MergeKeys(id: string, control: Dict)
    requires UniqueKeys(control)
    ensures Keys(BulkUpdateSettings(id, control)) ==
      Keys(GetModifiedSettings(id)) + Fresh(Keys(GetModifiedSettings(id)), Keys(control))
    ensures forall k :: k in Keys(BulkUpdateSettings(id, control)) <==>
      k in Keys(GetModifiedSettings(id)) || k in Keys(control)
  {
    var baseline := GetModifiedSettings(id);
    RemoveUnique(control, RecChannelsKey);
    PutAllKeys(baseline, Overrides(control));
    RemoveKeys(control, RecChannelsKey);
    DefaultRecChannels(id);
    FreshWithout(Keys(baseline), Keys(control), RecChannelsKey);
    FreshMembers(Keys(baseline), Keys(control));
  }

  /** The merged document is a dict: no key twice. */
  lemma MergeIsDict(id: string, control: Dict)
    ensures UniqueKeys(BulkUpdateSettings(id, control))
  {
    DefaultIsDict(id);
    PutAllUnique(GetModifiedSettings(id), Overrides(control));
  }

  /** Merging a merged document again for the same target changes nothing. */
  lemma MergeIdempotent(id: string, control: Dict)
    requires UniqueKeys(control)
    ensures BulkUpdateSettings(id, BulkUpdateSettings(id, control)) == BulkUpdateSettings(id, control)
  {
    var once := BulkUpdateSettings(id, control);
    var twice := BulkUpdateSettings(id, once);
    MergeIsDict(id, control);
    MergeIsDict(id, once);
    MergeAgainKeys(id, control);
    forall k
      ensures Get(twice, k) == Get(once, k)
    {
      MergeLookup(id, once, k);
      MergeLookup(id, control, k);
      if k == RecChannelsKey {
        MergeKeepsIdentity(id, control);
        DefaultRecChannels(id);
      }
    }
    Extensionality(twice, once);
  }

  /** Merging a merged document again leaves its keys, in order, as they are. */
  lemma MergeAgainKeys(id: string, control: Dict)
    requires UniqueKeys(control)
    ensures Keys(BulkUpdateSettings(id, BulkUpdateSettings(id, control))) == Keys(BulkUpdateSettings(id, control))
  {
    var known := Keys(GetModifiedSettings(id));
    MergeIsDict(id, control);
    MergeKeys(id, control);
    MergeKeys(id, BulkUpdateSettings(id, control));
    FreshAgain(known, Keys(control));
  }
}
