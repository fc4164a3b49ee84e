/** One redemption record and the job a worker runs on it
    (tools/offline-processor/src/main.rs:32-55, 68-73, 107-134).

    The token preimage and the signature are carried as the base64 text they
    are deserialized from. Rederiving the unblinded token, deriving its
    verification key and checking the HMAC-SHA512 signature over the payload's
    bytes (lines 120-127) happen in a cryptographic library that is not part of
    this model; together they are the parameter `verify`. */
module Verification {

  datatype TokenPreimage = TokenPreimage(encoded: string)

  datatype VerificationSignature = VerificationSignature(encoded: string)

  /** The signed part of the credential column. */
  datatype Credential = Credential(t: TokenPreimage, payload: string, signature: VerificationSignature)

  /** The credential column once unescaped and parsed; its `value` field is
      not part of this model. */
  datatype CredentialColumn = CredentialColumn(publicKey: string, credential: Credential)

  /** One decoded input line. */
  datatype Record = Record(id: string, paymentId: string, credential: CredentialColumn, timestamp: string)

  /** The correlation fields a worker copies out of its record. */
  datatype OutRecord = OutRecord(id: string, paymentId: string, timestamp: string)

  /** The two ways a job fails: "Could not find issuer" and "Did not validate". */
  datatype Reason = UnknownIssuer | SignatureMismatch

  /** The job's `Result<()>`. */
  datatype Verdict = Verified | Rejected(reason: Reason)

  /** What a worker sends back on the channel: `(result, out)`. */
  datatype JobResult = JobResult(verdict: Verdict, out: OutRecord)

  /** Lines 109-113: the correlation fields, copied unchanged. */
  function Correlation(record: Record): (out: OutRecord)
    ensures out.id == record.id && out.paymentId == record.paymentId && out.timestamp == record.timestamp
  {
    OutRecord(record.id, record.paymentId, record.timestamp)
  }

  /** The closure at lines 115-132. It looks only at the credential column, so
      the verdict cannot depend on the record's id, payment id or timestamp.
      The issuer is found by exact equality of the column's public key string
      with a key of the table. */
  function Check<K>(keys: map<string, K>, verify: (K, TokenPreimage, string, VerificationSignature) -> bool,
                    column: CredentialColumn): (v: Verdict)
    ensures v == Rejected(UnknownIssuer) <==> column.publicKey !in keys
    ensures v == Verified <==>
      column.publicKey in keys &&
      verify(keys[column.publicKey], column.credential.t, column.credential.payload, column.credential.signature)
    ensures v == Rejected(SignatureMismatch) <==>
      column.publicKey in keys &&
      !verify(keys[column.publicKey], column.credential.t, column.credential.payload, column.credential.signature)
  {
    if column.publicKey !in keys then Rejected(UnknownIssuer)
    else
      var issuer := keys[column.publicKey];
      var c := column.credential;
      if verify(issuer, c.t, c.payload, c.signature) then Verified else Rejected(SignatureMismatch)
  }

  /** The whole job for one record (lines 108-134). */
  function RunJob<K>(keys: map<string, K>, verify: (K, TokenPreimage, string, VerificationSignature) -> bool,
                     record: Record): (r: JobResult)
    ensures r.out.id == record.id && r.out.paymentId == record.paymentId && r.out.timestamp == record.timestamp
    ensures r.verdict.Verified? <==>
      var column := record.credential;
      column.publicKey in keys &&
      verify(keys[column.publicKey], column.credential.t, column.credential.payload, column.credential.signature)
  {
    JobResult(Check(keys, verify, record.credential), Correlation(record))
  }
}
