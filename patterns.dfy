/**
  The scanner's rule tables. The regular expressions are kept as their
  source text; what they match is decided by the matcher the scanner is
  given, so nothing here depends on their meaning.
 */
module Patterns {
  import opened Findings

  /** The three tables the scanner applies to every line. */
  datatype RuleSet = RuleSet(piiFields: seq<PiiPattern>, logs: seq<string>, storage: seq<string>)

  /** The scanner's tables, as the program defines them. */
  const Rules: RuleSet := RuleSet(PiiFieldPatterns, LogPatterns, UnencryptedPatterns)

  /** One row of `PII_FIELD_PATTERNS`: a pattern, the kind of data it detects and its severity. */
  datatype PiiPattern = PiiPattern(pattern: string, piiType: string, severity: Severity)

  /** `PII_FIELD_PATTERNS`, in table order. */
  const PiiFieldPatterns: seq<PiiPattern> := [
    PiiPattern(@"\b(ssn|social_security|social_security_number)\b", "SSN", Critical),
    PiiPattern(@"\b(credit_card|card_number|cc_number|ccn)\b", "Credit Card", Critical),
    PiiPattern(@"\b(password|passwd|pwd|secret|api_key|apikey|token)\b", "Credential", Critical),
    PiiPattern(@"\b(passport|passport_number|passport_no)\b", "Passport", Critical),
    PiiPattern(@"\b(driver_license|drivers_license|dl_number)\b", "Driver License", Critical),
    PiiPattern(@"\b(bank_account|account_number|routing_number|iban)\b", "Financial", Critical),
    PiiPattern(@"\b(email|email_address|e_mail)\b", "Email", High),
    PiiPattern(@"\b(phone|phone_number|mobile|telephone|cell)\b", "Phone", High),
    PiiPattern(@"\b(address|street_address|home_address|mailing_address)\b", "Address", High),
    PiiPattern(@"\b(birth_date|dob|date_of_birth|birthday)\b", "Birth Date", High),
    PiiPattern(@"\b(first_name|last_name|full_name|surname|given_name)\b", "Name", Medium),
    PiiPattern(@"\b(ip_address|ip_addr|client_ip|user_ip)\b", "IP Address", Medium),
    PiiPattern(@"\b(location|latitude|longitude|geo_location|coordinates)\b", "Location", Medium),
    PiiPattern(@"\b(gender|sex|ethnicity|race|religion)\b", "Demographic", Medium),
    PiiPattern(@"\b(medical|health|diagnosis|prescription|condition)\b", "Health", Critical),
    PiiPattern(@"\b(biometric|fingerprint|face_id|facial|retina)\b", "Biometric", Critical)
  ]

  /** `LOG_PATTERNS`: logging calls whose arguments mention personal data. */
  const LogPatterns: seq<string> := [
    @"(console\.(log|info|warn|error|debug))\s*\([^)]*\b(email|phone|ssn|password|credit_card|address)",
    @"(logger\.(log|info|warn|error|debug))\s*\([^)]*\b(email|phone|ssn|password|credit_card|address)",
    @"(log\.(info|warn|error|debug))\s*\([^)]*\b(email|phone|ssn|password|credit_card|address)",
    @"(print|println|printf)\s*\([^)]*\b(email|phone|ssn|password|credit_card|address)",
    @"(logging\.(info|warn|error|debug))\s*\([^)]*\b(email|phone|ssn|password|credit_card|address)"
  ]

  /** `UNENCRYPTED_PATTERNS`: request data or database writes carrying sensitive fields. */
  const UnencryptedPatterns: seq<string> := [
    @"(\w+)\s*=\s*(request|req)\.(body|form|params|query)\s*\[\s*[\'""]?(ssn|password|credit_card|card_number)",
    @"(db|database|store|save)\s*\.\s*\w+\s*\([^)]*\b(ssn|password|credit_card)\b[^)]*\)\s*(?!.*encrypt)"
  ]
}
