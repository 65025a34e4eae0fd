/** Alert rows sealed by an encryption provider: the round trip that the alert store relies on. */
module SealedAlerts {
  import opened Collections
  import opened Alerts
  import Encryption

  /** JSON text of an alert, and the model validation that reads it. */
  datatype Json = Json(dump: Alert -> string, validate: string -> Alert)

  ghost predicate FaithfulJson(json: Json) {
    forall alert :: json.validate(json.dump(alert)) == alert
  }

  /** Serialize and seal; unseal and validate. Text that cannot be unsealed is validated as empty. */
  function CodecFor(p: Encryption.Provider, utf8: Encryption.Utf8, json: Json, fits: Alert -> bool): Codec {
    Codec(
      (alert: Alert) => Encryption.Seal(p, utf8, json.dump(alert)),
      (stored: string) => match Encryption.Unseal(p, utf8, stored) { case Some(text) => json.validate(text) case None => json.validate("") },
      fits)
  }

  /** Under either provider, whatever JSON the alerts serialize to, an alert row is read back as written;
      so every result about a faithful codec holds of sealed rows. */
  lemma SealedCodecIsFaithful(p: Encryption.Provider, utf8: Encryption.Utf8, json: Json, fits: Alert -> bool)
    requires Encryption.FaithfulText(utf8) && (p.Local? ==> Encryption.FaithfulKey(p.fernet)) && FaithfulJson(json)
    ensures Faithful(CodecFor(p, utf8, json, fits))
  {
    var codec := CodecFor(p, utf8, json, fits);
    forall alert ensures codec.unseal(codec.seal(alert)) == alert {
      Encryption.UnsealUndoesSeal(p, utf8, json.dump(alert));
    }
  }
}
