/** The status badge and the button of the shared form components: which
    colour a badge takes, what text it shows, and when a button is
    disabled. */
module FormComponents {
  import opened Common
  import opened Text

  /** The colour family of a badge style. */
  datatype Tone = Yellow | Green | Red | Gray | Blue | Purple | Orange

  /** The style table: enrollment, order, session and subscription
      statuses, then the generic variants, `default` among them. A key
      outside the table has no style. */
  function StyleOf(key: string): (t: Option<Tone>)
    ensures key == "default" ==> t == Some(Gray)
  {
    match key
    case "PENDING" => Some(Yellow)
    case "APPROVED" => Some(Green)
    case "REJECTED" => Some(Red)
    case "CANCELLED" => Some(Gray)
    case "PAYMENT_PENDING" => Some(Yellow)
    case "PROCESSING" => Some(Blue)
    case "SHIPPED" => Some(Purple)
    case "DELIVERED" => Some(Green)
    case "SCHEDULED" => Some(Blue)
    case "IN_PROGRESS" => Some(Orange)
    case "COMPLETED" => Some(Green)
    case "ACTIVE" => Some(Green)
    case "EXPIRED" => Some(Gray)
    case "success" => Some(Green)
    case "warning" => Some(Yellow)
    case "error" => Some(Red)
    case "info" => Some(Blue)
    case "default" => Some(Gray)
    case _ => None
  }

  /** `statusStyles[status] || statusStyles[variant] || statusStyles.default`. */
  function BadgeTone(status: Option<string>, variant: Option<string>): (t: Tone)
    ensures status.Some? && StyleOf(status.value).Some? ==> t == StyleOf(status.value).value
    ensures (status.None? || StyleOf(status.value).None?) && variant.Some? && StyleOf(variant.value).Some? ==>
      t == StyleOf(variant.value).value
    ensures (status.None? || StyleOf(status.value).None?) && (variant.None? || StyleOf(variant.value).None?) ==>
      t == Gray
  {
    if status.Some? && StyleOf(status.value).Some? then StyleOf(status.value).value
    else if variant.Some? && StyleOf(variant.value).Some? then StyleOf(variant.value).value
    else StyleOf("default").value
  }

  /** A known status wins over any variant; an unknown one defers to it. */
  lemma StatusBeatsVariant(status: string, variant: Option<string>)
    ensures StyleOf(status).Some? ==> BadgeTone(Some(status), variant) == BadgeTone(Some(status), None)
    ensures StyleOf(status).None? ==> BadgeTone(Some(status), variant) == BadgeTone(None, variant)
  {
  }

  /** Statuses that mean the same thing share a colour: every waiting
      status is yellow, like the `warning` variant. */
  lemma WaitingIsYellow()
    ensures BadgeTone(Some("PENDING"), None) == BadgeTone(Some("PAYMENT_PENDING"), None) == BadgeTone(None, Some("warning")) == Yellow
  {
    assert StyleOf("PENDING") == StyleOf("PAYMENT_PENDING") == StyleOf("warning") == Some(Yellow);
  }

  /** Every finished-well status is green, like the `success` variant. */
  lemma DoneIsGreen()
    ensures BadgeTone(Some("APPROVED"), None) == BadgeTone(Some("DELIVERED"), None) == BadgeTone(Some("COMPLETED"), None)
      == BadgeTone(Some("ACTIVE"), None) == BadgeTone(None, Some("success")) == Green
  {
    assert StyleOf("APPROVED") == StyleOf("DELIVERED") == Some(Green);
    assert StyleOf("COMPLETED") == StyleOf("ACTIVE") == StyleOf("success") == Some(Green);
  }

  /** A rejection is red like the `error` variant, and a badge whose status
      and variant are both unknown falls back to the default grey. */
  lemma RejectedAndUnknownTones()
    ensures BadgeTone(Some("REJECTED"), None) == BadgeTone(None, Some("error")) == Red
    ensures BadgeTone(None, None) == BadgeTone(Some("no such status"), Some("no such variant")) == Gray
  {
    assert StyleOf("REJECTED") == StyleOf("error") == Some(Red);
    assert StyleOf("no such status") == StyleOf("no such variant") == None;
  }

  /** `status?.replace(/_/g, ' ') || 'Unknown'`. */
  function BadgeLabel(status: Option<string>): (l: string)
    ensures status.None? || status.value == "" ==> l == "Unknown"
    ensures status.Some? && status.value != "" ==> |l| == |status.value|
    ensures status.Some? && status.value != "" ==>
      forall i :: 0 <= i < |l| ==> l[i] == (if status.value[i] == '_' then ' ' else status.value[i])
  {
    match status
    case None => "Unknown"
    case Some(s) => if s == "" then "Unknown" else ReplaceAll(s, '_', ' ')
  }

  /** The label is never empty and never shows an underscore; a status
      without underscores is shown as it is. */
  lemma BadgeLabelShape(status: Option<string>)
    ensures BadgeLabel(status) != ""
    ensures forall i :: 0 <= i < |BadgeLabel(status)| ==> BadgeLabel(status)[i] != '_'
    ensures status.Some? && status.value != "" && (forall i :: 0 <= i < |status.value| ==> status.value[i] != '_')
      ==> BadgeLabel(status) == status.value
  {
  }

  /** Two statuses that differ only in underscores versus spaces read the
      same, e.g. IN_PROGRESS reads "IN PROGRESS". */
  lemma BadgeLabelExample()
    ensures BadgeLabel(Some("IN_PROGRESS")) == "IN PROGRESS"
    ensures BadgeLabel(Some("PAYMENT_PENDING")) == BadgeLabel(Some("PAYMENT PENDING"))
  {
  }

  /** `disabled={disabled || loading}` with both props defaulting to false. */
  predicate ButtonDisabled(disabled: Option<bool>, loading: Option<bool>) {
    IsTrue(disabled) || IsTrue(loading)
  }

  /** A loading button can never be clicked, whatever `disabled` says, and
      a button with neither prop is enabled. */
  lemma LoadingButtonIsDisabled(disabled: Option<bool>)
    ensures ButtonDisabled(disabled, Some(true))
    ensures !ButtonDisabled(None, None)
    ensures ButtonDisabled(disabled, None) <==> IsTrue(disabled)
  {
  }
}
