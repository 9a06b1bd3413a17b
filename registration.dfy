/**
  The registration conversation: `start` asks a new user for a name,
  `ask_phone` stores the name and asks for a phone number, and `save_phone`
  accepts a phone made only of digits (after trimming whitespace) and ends
  the conversation. The per-user data is a mutable dictionary that the
  handlers update in place; each handler returns the conversation's next
  state.
*/
module Registration {

  import opened Strings

  /** `ASK_NAME, ASK_PHONE, ASK_MAC = range(3)`. */
  const AskName: int := 0
  const AskPhone: int := 1
  const AskMac: int := 2
  /** `ConversationHandler.END`. */
  const End: int := -1

  const NameKey: string := "name"
  const PhoneKey: string := "phone"

  type UserMap = map<string, string>

  /** A handler either returns the next state or raises `KeyError(key)`. */
  datatype Outcome = Next(state: int) | KeyError(key: string)

  /** The user data after a handler ran, and what the handler produced. */
  datatype Step = Step(data: UserMap, outcome: Outcome)

  /** A user who has both a name and a phone on record. */
  predicate IsRegistered(data: UserMap) {
    NameKey in data && PhoneKey in data
  }

  // ---------------------------------------------------------------------
  // The handlers as functions of the user data they find

  /** `start`: returning users end the conversation at once, others are asked their name. */
  function StartStep(data: UserMap): (r: Step)
    ensures r.data == data
    ensures r.outcome.Next?
    ensures r.outcome.state == End <==> IsRegistered(data)
    ensures r.outcome.state == AskName <==> !IsRegistered(data)
  {
    if NameKey in data && PhoneKey in data then Step(data, Next(End)) else Step(data, Next(AskName))
  }

  /** `ask_phone`: the message text becomes the name, whatever it is. */
  function AskPhoneStep(data: UserMap, text: string): (r: Step)
    ensures r.outcome == Next(AskPhone)
    ensures r.data.Keys == data.Keys + {NameKey}
    ensures r.data[NameKey] == text
    ensures forall k :: k in data && k != NameKey ==> r.data[k] == data[k]
  {
    Step(data[NameKey := text], Next(AskPhone))
  }

  /**
    `save_phone`: the trimmed text is rejected, and the same state asked
    again, unless it is all digits; otherwise it is stored as the phone and
    only then is the name read, so a user without a name gets a `KeyError`
    with the phone already stored.
  */
  function SavePhoneStep(data: UserMap, text: string): (r: Step)
    ensures r.data == data || r.data == data[PhoneKey := Strip(text)]
    ensures r.outcome == Next(AskPhone) || r.outcome == Next(End) || r.outcome == KeyError(NameKey)
  {
    var phone := Strip(text);
    if !IsDigits(phone) then Step(data, Next(AskPhone))
    else
      var stored := data[PhoneKey := phone];
      if NameKey in stored then Step(stored, Next(End)) else Step(stored, KeyError(NameKey))
  }

  // ---------------------------------------------------------------------
  // The per-user dictionary, updated in place by the handlers

  class UserData {
    var entries: UserMap

    constructor (initial: UserMap)
      ensures entries == initial
    {
      entries := initial;
    }

    /** `start`: reads the data and changes nothing. */
    method Start() returns (next: int)
      ensures next == End <==> IsRegistered(entries)
      ensures next == AskName <==> !IsRegistered(entries)
      ensures Step(entries, Next(next)) == StartStep(entries)
    {
      if NameKey in entries && PhoneKey in entries {
        return End;
      }
      return AskName;
    }

    /** `ask_phone`: `user_data['name'] = text`. */
    method AskPhoneFor(text: string) returns (next: int)
      modifies this
      ensures Step(entries, Next(next)) == AskPhoneStep(old(entries), text)
    {
      entries := entries[NameKey := text];
      return AskPhone;
    }

    /** `save_phone`: validate, store, then read the name back. */
    method SavePhone(text: string) returns (outcome: Outcome)
      modifies this
      ensures Step(entries, outcome) == SavePhoneStep(old(entries), text)
    {
      var phone := Strip(text);
      if !IsDigits(phone) {
        return Next(AskPhone);
      }
      entries := entries[PhoneKey := phone];
      if NameKey !in entries {
        return KeyError(NameKey);
      }
      return Next(End);
    }
  }

  // ---------------------------------------------------------------------
  // Properties of the conversation

  /** A text is refused, with nothing stored, exactly when its trimmed form is not all digits. */
  lemma SavePhoneRejects(data: UserMap, text: string)
    ensures SavePhoneStep(data, text) == Step(data, Next(AskPhone)) <==> !IsDigits(Strip(text))
  {
  }

  /** An accepted phone is stored trimmed; no other key changes. */
  lemma SavePhoneStoresTrimmed(data: UserMap, text: string)
    requires IsDigits(Strip(text))
    ensures var r := SavePhoneStep(data, text);
      && r.data.Keys == data.Keys + {PhoneKey}
      && r.data[PhoneKey] == Strip(text)
      && (forall k :: k in data && k != PhoneKey ==> r.data[k] == data[k])
      && (r.outcome == Next(End) <==> NameKey in data)
  {
  }

  /** Blanks around the digits are dropped; the digits themselves are stored. */
  lemma PaddedPhoneAccepted(data: UserMap, before: string, digits: string, after: string)
    requires AllSpace(before) && AllSpace(after) && IsDigits(digits)
    requires NameKey in data
    ensures SavePhoneStep(data, before + digits + after) == Step(data[PhoneKey := digits], Next(End))
  {
    assert !IsSpace(digits[0]) && !IsSpace(digits[|digits| - 1]);
    StripExact(before, digits, after);
  }

  /** Sending the same phone twice leaves the same data and ends the same way. */
  lemma SavePhoneIdempotent(data: UserMap, text: string)
    ensures var once := SavePhoneStep(data, text);
      SavePhoneStep(once.data, text) == once
  {
    var phone := Strip(text);
    if IsDigits(phone) {
      var stored := data[PhoneKey := phone];
      assert SavePhoneStep(data, text).data == stored;
      assert stored[PhoneKey := phone] == stored;
    }
  }

  /** A text of digits alone is stored as it is. */
  lemma SavePhoneOfDigits(data: UserMap, phone: string)
    requires IsDigits(phone) && NameKey in data
    ensures SavePhoneStep(data, phone) == Step(data[PhoneKey := phone], Next(End))
  {
    DigitsAreStripped(phone);
  }

  /** A stored phone, sent back, is accepted unchanged. */
  lemma StoredPhoneReaccepted(data: UserMap, text: string)
    requires IsDigits(Strip(text)) && NameKey in data
    ensures var r := SavePhoneStep(data, text);
      SavePhoneStep(r.data, r.data[PhoneKey]) == r
  {
    var phone := Strip(text);
    var stored := data[PhoneKey := phone];
    assert SavePhoneStep(data, text) == Step(stored, Next(End));
    assert stored[PhoneKey] == phone && NameKey in stored;
    SavePhoneOfDigits(stored, phone);
    assert stored[PhoneKey := phone] == stored;
  }

  /** A phone sent without a name on record is stored, then the name lookup fails. */
  lemma SavePhoneWithoutName(data: UserMap, text: string)
    requires NameKey !in data && IsDigits(Strip(text))
    ensures SavePhoneStep(data, text) == Step(data[PhoneKey := Strip(text)], KeyError(NameKey))
  {
  }

  /**
    The full conversation from any data: after a name and an accepted phone
    the conversation has ended, both are on record as sent (the phone
    trimmed), every other key is as before, and `start` now short-circuits.
  */
  lemma RegistrationCompletes(data: UserMap, name: string, text: string)
    requires IsDigits(Strip(text))
    ensures var asked := AskPhoneStep(data, name);
      var saved := SavePhoneStep(asked.data, text);
      && saved.outcome == Next(End)
      && saved.data[NameKey] == name
      && saved.data[PhoneKey] == Strip(text)
      && (forall k :: k in data && k != NameKey && k != PhoneKey ==> saved.data[k] == data[k])
      && StartStep(saved.data) == Step(saved.data, Next(End))
  {
    var asked := AskPhoneStep(data, name);
    SavePhoneStoresTrimmed(asked.data, text);
  }

  /** Once registered, a user stays registered through every handler. */
  lemma RegisteredStaysRegistered(data: UserMap, text: string)
    requires IsRegistered(data)
    ensures IsRegistered(StartStep(data).data)
    ensures IsRegistered(AskPhoneStep(data, text).data)
    ensures IsRegistered(SavePhoneStep(data, text).data)
  {
  }

  /** A refused phone leaves the user where they were: not registered if they were not. */
  lemma RefusedPhoneKeepsUnregistered(data: UserMap, text: string)
    requires !IsRegistered(data) && !IsDigits(Strip(text))
    ensures !IsRegistered(SavePhoneStep(data, text).data)
    ensures StartStep(SavePhoneStep(data, text).data).outcome == Next(AskName)
  {
  }
}
