/** The site settings editor (src/pages/SettingsPage.tsx): field edits on a
    loaded settings object, and a save that sends the whole object to
    `PUT /api/admin/settings`. `None` is the editor's `null` state before
    the settings have loaded. */
module SettingsPage {
  import opened Json
  import opened Store
  import opened Auth
  import opened Api

  /** `updateField(field, value)`: `{ ...settings, [field]: value }`. */
  function UpdateField(settings: Option<Record>, field: string, value: Value): (s: Option<Record>)
    ensures settings.None? ==> s.None?
    ensures settings.Some? ==>
      && s.Some?
      && s.value.Keys == settings.value.Keys + {field}
      && s.value[field] == value
      && forall k :: k in settings.value && k != field ==> s.value[k] == settings.value[k]
  {
    match settings
    case None => None
    case Some(m) => Some(m[field := value])
  }

  function SocialLinks(m: Record): Record { Spread(Get(m, "socialLinks")) }

  /** `updateSocialLink(platform, value)`: replaces `socialLinks` by a copy
      with `platform` set. */
  function UpdateSocialLink(settings: Option<Record>, platform: string, value: string): (s: Option<Record>)
    ensures settings.None? ==> s.None?
    ensures settings.Some? ==>
      && s.Some?
      && s.value - {"socialLinks"} == settings.value - {"socialLinks"}
      && "socialLinks" in s.value
      && SocialLinks(s.value).Keys == SocialLinks(settings.value).Keys + {platform}
      && SocialLinks(s.value)[platform] == VStr(value)
      && forall p :: p in SocialLinks(settings.value) && p != platform ==>
           SocialLinks(s.value)[p] == SocialLinks(settings.value)[p]
  {
    match settings
    case None => None
    case Some(m) => Some(m["socialLinks" := VObj(SocialLinks(m)[platform := VStr(value)])])
  }

  /** Setting a field back to the value it had restores the settings. */
  lemma UpdateFieldUndo(m: Record, field: string, value: Value)
    requires field in m
    ensures UpdateField(UpdateField(Some(m), field, value), field, m[field]) == Some(m)
  {
    assert m[field := value][field := m[field]] == m;
  }

  /** `handleSave`: before the settings load nothing is sent; afterwards
      the whole object goes to `PUT /api/admin/settings`, which succeeds
      exactly when the gate admits the session and then replaces the
      settings document with it. */
  function SaveSettings(st: Store, settings: Option<Record>, authorization: Option<string>, env: Env): (rep: Option<Reply>)
    ensures rep.None? <==> settings.None?
    ensures rep.Some? ==> (rep.value.status == 200 <==> Gate(authorization, env.verify).Admit?)
    ensures rep.Some? && rep.value.status == 200 ==>
      && ReadSettings(rep.value.store) == VObj(settings.value)
      && forall n :: Read(rep.value.store, n) == Read(st, n)
    ensures rep.Some? && rep.value.status != 200 ==> rep.value.store == st
  {
    match settings
    case None => None
    case Some(m) => Some(Handle(st, AdminSettingsPut, authorization, m, env))
  }

  /** The save sends the whole settings object, not a change set, and the
      server replaces its document with it: the next load, from the admin
      route or the public one, returns exactly the edited object, fields
      the editor removed included. */
  lemma SaveThenLoad(st: Store, settings: Record, authorization: Option<string>, env: Env)
    requires Gate(authorization, env.verify).Admit?
    ensures var put := SaveSettings(st, Some(settings), authorization, env).value;
      && put.status == 200
      && Handle(put.store, AdminSettingsGet, authorization, map[], env).body == VObj(settings)
      && Handle(put.store, SettingsGet, None, map[], env).body == VObj(settings)
  {
  }

  /** Two edits of different fields commute. */
  lemma FieldEditsCommute(settings: Option<Record>, f: string, v: Value, g: string, w: Value)
    requires f != g
    ensures UpdateField(UpdateField(settings, f, v), g, w) == UpdateField(UpdateField(settings, g, w), f, v)
  {
    if settings.Some? {
      assert settings.value[f := v][g := w] == settings.value[g := w][f := v];
    }
  }
}
