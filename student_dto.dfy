/** Request-body validation of the students API: the decorator rules of the
    create and update DTOs, run under a global validation pipe that rejects
    any property a DTO does not declare. Bodies are taken after the pipe's
    transformation, so date properties already hold `Date` objects. The
    email and UUID formats are the validator library's and stay abstract. */
module StudentDto {
  import opened JsValues

  /** The values of the `Gender` enum of the student entity. */
  const GenderValues: seq<string> := ["male", "female", "other"]

  /** One validation decorator. */
  datatype Check =
    | IsString
    | IsNotEmpty
    | IsEnumGender
    | IsDate
    | IsEmail
    | IsUuid
    | IsBoolean
    | IsOptional

  /** The library's email and UUID tests. */
  datatype Formats = Formats(isEmail: string -> bool, isUuid: string -> bool)

  /** Whether one decorator accepts a property value (`None` is `undefined`). */
  predicate CheckHolds(c: Check, v: Option<Value>, fmt: Formats)
    ensures c != IsOptional && CheckHolds(c, v, fmt) ==> v.Some? && v.value != Null
  {
    match c
    case IsString => v.Some? && v.value.Str?
    case IsNotEmpty => v.Some? && v.value != Null && v.value != Str("")
    case IsEnumGender => v.Some? && v.value.Str? && v.value.s in GenderValues
    case IsDate => v.Some? && v.value.DateObj?
    case IsEmail => v.Some? && v.value.Str? && fmt.isEmail(v.value.s)
    case IsUuid => v.Some? && v.value.Str? && fmt.isUuid(v.value.s)
    case IsBoolean => v.Some? && v.value.Bool?
    case IsOptional => true
  }

  /** A property passes when it carries `IsOptional` and is null or
      undefined, or else when every one of its decorators accepts it. */
  predicate PropertyValid(checks: seq<Check>, v: Option<Value>, fmt: Formats) {
    (IsOptional in checks && (v.None? || v == Some(Null))) ||
    forall i :: 0 <= i < |checks| ==> CheckHolds(checks[i], v, fmt)
  }

  /** `CreateStudentDto`, property by property. */
  const CreateRules: map<string, seq<Check>> := map[
    "studentId" := [IsString, IsNotEmpty],
    "gender" := [IsEnumGender, IsNotEmpty],
    "dateOfBirth" := [IsDate, IsNotEmpty],
    "address" := [IsString, IsOptional],
    "phoneNumber" := [IsString, IsOptional],
    "parentName" := [IsString, IsOptional],
    "parentEmail" := [IsEmail, IsOptional],
    "parentPhone" := [IsString, IsOptional],
    "emergencyContact" := [IsString, IsOptional],
    "bloodGroup" := [IsString, IsOptional],
    "medicalConditions" := [IsString, IsOptional],
    "enrollmentDate" := [IsDate, IsOptional],
    "currentGrade" := [IsString, IsOptional],
    "currentSection" := [IsString, IsOptional],
    "userId" := [IsUuid, IsNotEmpty]
  ]

  /** `UpdateStudentDto`, property by property. */
  const UpdateRules: map<string, seq<Check>> := map[
    "studentId" := [IsString, IsOptional],
    "gender" := [IsEnumGender, IsOptional],
    "dateOfBirth" := [IsDate, IsOptional],
    "address" := [IsString, IsOptional],
    "phoneNumber" := [IsString, IsOptional],
    "parentName" := [IsString, IsOptional],
    "parentEmail" := [IsEmail, IsOptional],
    "parentPhone" := [IsString, IsOptional],
    "emergencyContact" := [IsString, IsOptional],
    "bloodGroup" := [IsString, IsOptional],
    "medicalConditions" := [IsString, IsOptional],
    "isActive" := [IsBoolean, IsOptional],
    "enrollmentDate" := [IsDate, IsOptional],
    "graduationDate" := [IsDate, IsOptional],
    "currentGrade" := [IsString, IsOptional],
    "currentSection" := [IsString, IsOptional]
  ]

  /** The properties the pipe reports: undeclared ones (`forbidNonWhitelisted`)
      and declared ones that fail a decorator. */
  function ValidationErrors(rules: map<string, seq<Check>>, body: Record, fmt: Formats): set<string> {
    (set k | k in body && k !in rules) + (set k | k in rules && !PropertyValid(rules[k], Field(body, k), fmt))
  }

  /** The pipe lets the body through to the handler. */
  predicate Accepted(rules: map<string, seq<Check>>, body: Record, fmt: Formats) {
    ValidationErrors(rules, body, fmt) == {}
  }

  /** A body is accepted exactly when it declares nothing extra and every
      declared property passes its decorators. */
  lemma AcceptedIff(rules: map<string, seq<Check>>, body: Record, fmt: Formats)
    ensures Accepted(rules, body, fmt) <==>
      (forall k :: k in body ==> k in rules) &&
      (forall k :: k in rules ==> PropertyValid(rules[k], Field(body, k), fmt))
  {
    var extra := set k | k in body && k !in rules;
    var failing := set k | k in rules && !PropertyValid(rules[k], Field(body, k), fmt);
    assert ValidationErrors(rules, body, fmt) == extra + failing;
    if exists k :: k in body && k !in rules {
      var k :| k in body && k !in rules;
      assert k in extra;
    } else if exists k :: k in rules && !PropertyValid(rules[k], Field(body, k), fmt) {
      var k :| k in rules && !PropertyValid(rules[k], Field(body, k), fmt);
      assert k in failing;
    } else {
      assert extra == {};
      assert failing == {};
    }
  }

  /** For the decorator pairs used here: an optional property passes when it
      is missing or null, or holds a value the typing decorator accepts; a
      required one must satisfy both of its decorators. */
  lemma PairValid(typing: Check, second: Check, v: Option<Value>, fmt: Formats)
    requires typing != IsOptional && second in {IsOptional, IsNotEmpty}
    ensures second == IsOptional ==>
      (PropertyValid([typing, second], v, fmt) <==> v.None? || v == Some(Null) || CheckHolds(typing, v, fmt))
    ensures second == IsNotEmpty ==>
      (PropertyValid([typing, second], v, fmt) <==> CheckHolds(typing, v, fmt) && CheckHolds(IsNotEmpty, v, fmt))
  {
    var checks := [typing, second];
    assert IsOptional in checks <==> second == IsOptional;
    assert (forall i :: 0 <= i < |checks| ==> CheckHolds(checks[i], v, fmt)) <==>
           CheckHolds(typing, v, fmt) && CheckHolds(second, v, fmt) by {
      if CheckHolds(typing, v, fmt) && CheckHolds(second, v, fmt) {
        forall i | 0 <= i < |checks| ensures CheckHolds(checks[i], v, fmt) {
          if i == 0 { assert checks[i] == typing; } else { assert checks[i] == second; }
        }
      }
      if forall i :: 0 <= i < |checks| ==> CheckHolds(checks[i], v, fmt) {
        assert CheckHolds(checks[0], v, fmt) && CheckHolds(checks[1], v, fmt);
      }
    }
    if typing != IsNotEmpty && (v.None? || v == Some(Null)) {
      assert !CheckHolds(typing, v, fmt);
    }
  }

  // ---------------------------------------------------------------------
  // CreateStudentDto
  // ---------------------------------------------------------------------

  const CreateRequired: set<string> := {"studentId", "gender", "dateOfBirth", "userId"}

  /** Every create property has a typing decorator and one of `IsOptional`
      or `IsNotEmpty`; it is optional exactly when it is not one of the four
      required ones. */
  lemma CreateRulesShape()
    ensures CreateRequired <= CreateRules.Keys
    ensures forall k :: k in CreateRules ==>
      |CreateRules[k]| == 2 && CreateRules[k][0] != IsOptional &&
      (CreateRules[k][1] == IsOptional <==> k !in CreateRequired) &&
      (CreateRules[k][1] == IsNotEmpty <==> k in CreateRequired)
  {
    forall k | k in CreateRules
      ensures |CreateRules[k]| == 2 && CreateRules[k][0] != IsOptional
      ensures CreateRules[k][1] == IsOptional <==> k !in CreateRequired
      ensures CreateRules[k][1] == IsNotEmpty <==> k in CreateRequired
    {
      assert k in CreateRequired <==> k == "studentId" || k == "gender" || k == "dateOfBirth" || k == "userId";
    }
  }

  /** The update DTO declares the create DTO's properties without `userId`,
      plus `isActive` and `graduationDate`. */
  lemma UpdateRulesKeys(k: string)
    ensures k in UpdateRules <==> (k in CreateRules && k != "userId") || k == "isActive" || k == "graduationDate"
  {
  }

  /** Every update property is optional, and those the create DTO also
      declares keep its typing decorator. */
  lemma UpdateRulesShape(k: string)
    requires k in UpdateRules
    ensures |UpdateRules[k]| == 2 && UpdateRules[k][0] != IsOptional && UpdateRules[k][1] == IsOptional
    ensures k in CreateRules ==> UpdateRules[k][0] == CreateRules[k][0]
  {
    UpdateRulesOptional(k);
    UpdateRulesTyping(k);
  }

  /** Each update property is a typing decorator followed by `IsOptional`. */
  lemma UpdateRulesOptional(k: string)
    requires k in UpdateRules
    ensures |UpdateRules[k]| == 2 && UpdateRules[k][0] != IsOptional && UpdateRules[k][1] == IsOptional
  {
  }

  /** A property both DTOs declare has the same typing decorator in each. */
  lemma UpdateRulesTyping(k: string)
    requires k in UpdateRules
    ensures k in CreateRules ==> UpdateRules[k][0] == CreateRules[k][0]
  {
    if k in CreateRules {
      UpdateTyping(k);
      CreateTyping(k);
    }
  }

  /** The typing decorator of each create property, key by key. */
  lemma CreateTyping(k: string)
    requires k in CreateRules
    ensures k != "isActive" && k != "graduationDate"
    ensures k == "gender" ==> CreateRules[k][0] == IsEnumGender
    ensures k == "parentEmail" ==> CreateRules[k][0] == IsEmail
    ensures k == "userId" ==> CreateRules[k][0] == IsUuid
    ensures k in {"dateOfBirth", "enrollmentDate"} ==> CreateRules[k][0] == IsDate
    ensures k !in {"gender", "parentEmail", "userId", "dateOfBirth", "enrollmentDate"} ==>
      CreateRules[k][0] == IsString
  {
    if k !in {"gender", "parentEmail", "userId", "dateOfBirth", "enrollmentDate"} {
      assert k in {"studentId", "address", "phoneNumber", "parentName", "parentPhone", "emergencyContact",
                   "bloodGroup", "medicalConditions", "currentGrade", "currentSection"};
    }
  }

  /** An accepted create body has a non-empty string `studentId`, a
      `gender` from the enum, a `Date` for `dateOfBirth`, and a `userId`
      the UUID test accepts. */
  lemma CreateRequiredProperties(body: Record, fmt: Formats)
    requires Accepted(CreateRules, body, fmt)
    ensures "studentId" in body && body["studentId"].Str? && body["studentId"].s != ""
    ensures "gender" in body && body["gender"].Str? && body["gender"].s in GenderValues
    ensures "dateOfBirth" in body && body["dateOfBirth"].DateObj?
    ensures "userId" in body && body["userId"].Str? && fmt.isUuid(body["userId"].s)
  {
    assert CreateRules["studentId"] == [IsString, IsNotEmpty];
    RequiredPairHolds(CreateRules, body, fmt, "studentId", IsString);
    assert CreateRules["gender"] == [IsEnumGender, IsNotEmpty];
    RequiredPairHolds(CreateRules, body, fmt, "gender", IsEnumGender);
    assert CreateRules["dateOfBirth"] == [IsDate, IsNotEmpty];
    RequiredPairHolds(CreateRules, body, fmt, "dateOfBirth", IsDate);
    assert CreateRules["userId"] == [IsUuid, IsNotEmpty];
    RequiredPairHolds(CreateRules, body, fmt, "userId", IsUuid);
  }

  /** A declared property with a typing decorator and `IsNotEmpty` holds a
      value both accept in every accepted body. */
  lemma RequiredPairHolds(rules: map<string, seq<Check>>, body: Record, fmt: Formats, key: string, typing: Check)
    requires Accepted(rules, body, fmt)
    requires typing != IsOptional && key in rules && rules[key] == [typing, IsNotEmpty]
    ensures key in body && CheckHolds(typing, Some(body[key]), fmt) && CheckHolds(IsNotEmpty, Some(body[key]), fmt)
  {
    AcceptedIff(rules, body, fmt);
    PairValid(typing, IsNotEmpty, Field(body, key), fmt);
  }

  /** In an accepted create body, a present non-null `parentEmail` passes
      the email test, a present non-null `enrollmentDate` is a `Date`, and
      the other optional properties, when present and non-null, are strings. */
  lemma CreateOptionalProperties(body: Record, fmt: Formats, k: string)
    requires Accepted(CreateRules, body, fmt)
    requires k in body && body[k] != Null && k !in CreateRequired
    ensures k == "parentEmail" ==> body[k].Str? && fmt.isEmail(body[k].s)
    ensures k == "enrollmentDate" ==> body[k].DateObj?
    ensures k != "parentEmail" && k != "enrollmentDate" ==> body[k].Str?
  {
    AcceptedIff(CreateRules, body, fmt);
    assert k in CreateRules;
    PairValid(CreateRules[k][0], IsOptional, Field(body, k), fmt);
  }

  /** Every property outside the four required ones may be left out of an
      accepted create body. */
  lemma CreateOptionalMayBeOmitted(body: Record, fmt: Formats, k: string)
    requires Accepted(CreateRules, body, fmt)
    requires k !in CreateRequired
    ensures Accepted(CreateRules, body - {k}, fmt)
  {
    AcceptedIff(CreateRules, body, fmt);
    AcceptedIff(CreateRules, body - {k}, fmt);
    forall j | j in CreateRules
      ensures PropertyValid(CreateRules[j], Field(body - {k}, j), fmt)
    {
      if j == k {
        assert IsOptional in CreateRules[j];
      } else {
        assert Field(body - {k}, j) == Field(body, j);
      }
    }
  }

  /** A create body carrying `isActive` or `graduationDate` is rejected:
      the create DTO does not declare them. */
  lemma CreateRejectsUpdateOnlyProperties(body: Record, fmt: Formats)
    requires "isActive" in body || "graduationDate" in body
    ensures !Accepted(CreateRules, body, fmt)
  {
    AcceptedIff(CreateRules, body, fmt);
  }

  /** The four required properties alone make an accepted create body. */
  lemma CreateMinimalBodyAccepted(studentId: string, gender: string, birth: CalendarDate, userId: string, fmt: Formats)
    requires studentId != "" && gender in GenderValues && userId != "" && fmt.isUuid(userId)
    ensures Accepted(CreateRules,
      map["studentId" := Str(studentId), "gender" := Str(gender),
          "dateOfBirth" := DateObj(birth), "userId" := Str(userId)], fmt)
  {
    var body := map["studentId" := Str(studentId), "gender" := Str(gender),
                    "dateOfBirth" := DateObj(birth), "userId" := Str(userId)];
    AcceptedIff(CreateRules, body, fmt);
    forall k | k in CreateRules ensures PropertyValid(CreateRules[k], Field(body, k), fmt) {
      MinimalBodyPropertyValid(body, studentId, gender, birth, userId, fmt, k);
    }
  }

  /** One property of the minimal create body passes its decorators. */
  lemma MinimalBodyPropertyValid(body: Record, studentId: string, gender: string, birth: CalendarDate,
                                 userId: string, fmt: Formats, k: string)
    requires studentId != "" && gender in GenderValues && userId != "" && fmt.isUuid(userId)
    requires body == map["studentId" := Str(studentId), "gender" := Str(gender),
                         "dateOfBirth" := DateObj(birth), "userId" := Str(userId)]
    requires k in CreateRules
    ensures PropertyValid(CreateRules[k], Field(body, k), fmt)
  {
    if k == "studentId" {
      assert CreateRules[k] == [IsString, IsNotEmpty];
      PairValid(IsString, IsNotEmpty, Field(body, k), fmt);
    } else if k == "gender" {
      assert CreateRules[k] == [IsEnumGender, IsNotEmpty];
      PairValid(IsEnumGender, IsNotEmpty, Field(body, k), fmt);
    } else if k == "dateOfBirth" {
      assert CreateRules[k] == [IsDate, IsNotEmpty];
      PairValid(IsDate, IsNotEmpty, Field(body, k), fmt);
    } else if k == "userId" {
      assert CreateRules[k] == [IsUuid, IsNotEmpty];
      PairValid(IsUuid, IsNotEmpty, Field(body, k), fmt);
    } else {
      assert Field(body, k) == None;
      CreateRulesShape();
      assert k !in CreateRequired;
      var checks := CreateRules[k];
      assert checks == [checks[0], IsOptional];
      PairValid(checks[0], IsOptional, Field(body, k), fmt);
    }
  }

  // ---------------------------------------------------------------------
  // UpdateStudentDto
  // ---------------------------------------------------------------------

  /** Every update property is optional: the empty body is accepted. */
  lemma UpdateEmptyBodyAccepted(fmt: Formats)
    ensures Accepted(UpdateRules, map[], fmt)
  {
    AcceptedIff(UpdateRules, map[], fmt);
    forall k | k in UpdateRules ensures PropertyValid(UpdateRules[k], Field(map[], k), fmt) {
      UpdateRulesShape(k);
      assert UpdateRules[k][1] == IsOptional;
    }
  }

  /** In an accepted update body every present non-null property has its
      type: `gender` from the enum, `parentEmail` an email, `isActive` a
      boolean, the three dates `Date`s, the rest strings. */
  lemma UpdatePresentProperties(body: Record, fmt: Formats, k: string)
    requires Accepted(UpdateRules, body, fmt)
    requires k in body && body[k] != Null
    ensures k == "gender" ==> body[k].Str? && body[k].s in GenderValues
    ensures k == "parentEmail" ==> body[k].Str? && fmt.isEmail(body[k].s)
    ensures k == "isActive" ==> body[k].Bool?
    ensures k in {"dateOfBirth", "enrollmentDate", "graduationDate"} ==> body[k].DateObj?
    ensures k !in {"gender", "parentEmail", "isActive", "dateOfBirth", "enrollmentDate", "graduationDate"} ==>
      body[k].Str?
  {
    AcceptedIff(UpdateRules, body, fmt);
    assert k in UpdateRules;
    UpdateRulesShape(k);
    var typing := UpdateRules[k][0];
    assert UpdateRules[k] == [typing, IsOptional];
    PairValid(typing, IsOptional, Field(body, k), fmt);
    UpdateTyping(k);
  }

  /** The typing decorator of each update property, key by key. */
  lemma UpdateTyping(k: string)
    requires k in UpdateRules
    ensures k == "gender" ==> UpdateRules[k][0] == IsEnumGender
    ensures k == "parentEmail" ==> UpdateRules[k][0] == IsEmail
    ensures k == "isActive" ==> UpdateRules[k][0] == IsBoolean
    ensures k != "userId"
    ensures k in {"dateOfBirth", "enrollmentDate", "graduationDate"} ==> UpdateRules[k][0] == IsDate
    ensures k !in {"gender", "parentEmail", "isActive", "dateOfBirth", "enrollmentDate", "graduationDate"} ==>
      UpdateRules[k][0] == IsString
  {
    if k in {"gender", "parentEmail", "isActive", "dateOfBirth", "enrollmentDate", "graduationDate"} {
    } else {
      assert k in {"studentId", "address", "phoneNumber", "parentName", "parentPhone", "emergencyContact",
                   "bloodGroup", "medicalConditions", "currentGrade", "currentSection"};
    }
  }

  /** An update body carrying `userId` is rejected: the update DTO does not
      declare it. */
  lemma UpdateRejectsUserId(body: Record, fmt: Formats)
    requires "userId" in body
    ensures !Accepted(UpdateRules, body, fmt)
  {
    AcceptedIff(UpdateRules, body, fmt);
  }
}
